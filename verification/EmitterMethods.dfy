/**
 * The emitter as the backend runs it: loops over program counters that append bytes to a buffer
 * and push and pop the tracked operand kinds in place. Every method writes exactly the encoding of
 * what the corresponding function of `Emitter` returns, or fails exactly when that function does.
 */
module EmitterMethods {
  import opened Words
  import Mir
  import opened StackMap
  import opened Wasm
  import opened Emitter
  import opened Leb
  import opened Binary
  import opened Buffers
  import Slots

  const MAX_LOCALS := 256

  /** Every local, global and callee index fits the 32-bit index fields of the format, and a frame has
      a slot for every local. */
  predicate SizesFit(fn: Mir.Function) {
    && |fn.localKinds| <= MAX_LOCALS && |fn.sigs| < TWO32 && |fn.insts| < TWO31
    && (fn.frame.Some? ==>
          && fn.frame.value.pointer < TWO32 && fn.frame.value.params <= |fn.localKinds|
          && |fn.frame.value.offsets| == |fn.localKinds|)
  }

  class EmitState {
    const kinds: array<Mir.Kind>
    var stackLen: nat
    // planned before emission starts: where the locals and the call scratch area live
    const wasmValueIndex: seq<nat>
    const frameBase: nat
    const scratchI32: nat
    const scratchI64: nat

    ghost predicate Valid()
      reads this
    {
      stackLen <= kinds.Length == MAX_STACK
    }

    ghost function Stack(): (ks: Kinds)
      requires Valid()
      reads this, kinds
    {
      kinds[..stackLen]
    }

    /** The plan was made for `fn`, and every index in it fits. */
    ghost predicate For(fn: Mir.Function) {
      && SizesFit(fn) && scratchI32 == ScratchI32(fn) && scratchI64 == ScratchI64(fn) && frameBase == FrameBase(fn)
      && |wasmValueIndex| == ParamCount(fn)
        && (forall i :: 0 <= i < ParamCount(fn) ==> wasmValueIndex[i] == LocalIndex(fn, i))
      && FrameBase(fn) <= 2 * MAX_LOCALS && ScratchI32(fn) <= 2 * MAX_LOCALS + HIDDEN_LOCALS
    }

    /** Parameters have locals of their own, and so do all other locals when there is no frame. */
    constructor (fn: Mir.Function)
      requires SizesFit(fn)
      ensures Valid() && fresh(kinds) && Stack() == [] && For(fn)
    {
      hide SlotTypes, ExpandTypes;
      var index: seq<nat>, next := [], 0;
      var count := ParamCount(fn);
      var i := 0;
      FirstIndex(fn);
      while i < count
        invariant 0 <= i <= count && |index| == i && next == LocalIndex(fn, i) && next <= 2 * i
        invariant forall j :: 0 <= j < i ==> index[j] == LocalIndex(fn, j)
      {
        NextIndex(fn, i);
        index := index + [next];
        next := next + |SlotTypes(fn.localKinds[i])|;
        i := i + 1;
      }
      var scratch := if fn.frame.None? then next else next + HIDDEN_LOCALS;
      kinds := new Mir.Kind[MAX_STACK];
      stackLen := 0;
      wasmValueIndex := index;
      frameBase := next;
      scratchI32 := scratch;
      scratchI64 := scratch + CALL_SCRATCH_I32;
    }

    method Push(k: Mir.Kind) returns (ok: bool)
      requires Valid()
      modifies this, kinds
      ensures Valid() && ok == (|old(Stack())| < MAX_STACK)
      ensures Stack() == if ok then old(Stack()) + [k] else old(Stack())
    {
      ok := stackLen < kinds.Length;
      if ok {
        kinds[stackLen] := k;
        stackLen := stackLen + 1;
      }
    }

    method Truncate(n: nat)
      requires Valid() && n <= stackLen
      modifies this
      ensures Valid() && Stack() == old(Stack())[..n]
    {
      stackLen := n;
    }

    method Pop() returns (r: Option<Mir.Kind>)
      requires Valid()
      modifies this
      ensures Valid() && r.Some? == (old(Stack()) != [])
      ensures if r.None? then Stack() == old(Stack()) else old(Stack()) == Stack() + [r.value]
    {
      if stackLen == 0 {
        return None;
      }
      stackLen := stackLen - 1;
      return Some(kinds[stackLen]);
    }
  }

  lemma FirstIndex(fn: Mir.Function)
    ensures LocalIndex(fn, 0) == 0
  {
    assert fn.localKinds[..0] == [];
  }

  lemma NextIndex(fn: Mir.Function, i: nat)
    requires i < |fn.localKinds|
    ensures LocalIndex(fn, i + 1) == LocalIndex(fn, i) + |SlotTypes(fn.localKinds[i])| <= LocalIndex(fn, i) + 2
  {
    Slots.ExpandTypesPush(fn.localKinds[..i], fn.localKinds[i]);
    assert fn.localKinds[..i + 1] == fn.localKinds[..i] + [fn.localKinds[i]];
  }

  datatype Status = Done | Refused(error: EmitError) | TooLarge

  /** What a method that emits `r` on top of `before` leaves behind. */
  ghost predicate Wrote(before: seq<Byte>, limit: nat, contents: seq<Byte>, stack: Kinds, status: Status, r: Emitted) {
    match status
    case Done => r.Ok? && contents == before + EncodeAll(r.code) && stack == r.stack
    case Refused(e) => r == Err(e)
    case TooLarge => r.Ok? ==> |before| + |EncodeAll(r.code)| > limit
  }

  /** Appends one instruction that contains no others. */
  method AppendInstr(body: Buffer, i: Instr) returns (ok: bool)
    requires body.Valid() && Encodable(i) && !i.Block? && !i.Loop? && !i.If? && !i.IfElse?
    modifies body, body.data
    ensures body.Valid() && (body.data == old(body.data) || fresh(body.data))
    ensures ok ==> body.Contents() == old(body.Contents()) + Encode(i)
    ensures !ok ==> |old(body.Contents())| + |Encode(i)| > body.Limit()
  {
    match i
    case Unreachable => ok := body.AppendByte(0x00);
    case Return => ok := body.AppendByte(0x0f);
    case Drop => ok := body.AppendByte(0x1a);
    case Numeric(op) => ok := body.AppendByte(op);
    case Br(d) => ok := AppendIndexed(body, 0x0c, d);
    case BrIf(d) => ok := AppendIndexed(body, 0x0d, d);
    case Call(f) => ok := AppendIndexed(body, 0x10, f);
    case LocalGet(x) => ok := AppendIndexed(body, 0x20, x);
    case LocalSet(x) => ok := AppendIndexed(body, 0x21, x);
    case GlobalGet(x) => ok := AppendIndexed(body, 0x23, x);
    case GlobalSet(x) => ok := AppendIndexed(body, 0x24, x);
    case MemLoad(t) => ok := AppendMemory(body, if t == TI32 then 0x28 else 0x29, t);
    case MemStore(t) => ok := AppendMemory(body, if t == TI32 then 0x36 else 0x37, t);
    case MemStore8 => ok := AppendThree(body, 0x3a, 0, 0);
    case I32Const(c) => ok := AppendConst(body, 0x41, c);
    case I64Const(c) => ok := AppendConst(body, 0x42, c);
  }

  method AppendIndexed(body: Buffer, op: Byte, x: nat) returns (ok: bool)
    requires body.Valid() && x < TWO32
    modifies body, body.data
    ensures body.Valid() && (body.data == old(body.data) || fresh(body.data))
    ensures ok ==> body.Contents() == old(body.Contents()) + ([op] + Uleb(x))
    ensures !ok ==> |old(body.Contents())| + |[op] + Uleb(x)| > body.Limit()
  {
    ok := body.AppendByte(op);
    if ok {
      ok := body.AppendUleb(x);
    }
  }

  method AppendMemory(body: Buffer, op: Byte, t: ValType) returns (ok: bool)
    requires body.Valid()
    modifies body, body.data
    ensures body.Valid() && (body.data == old(body.data) || fresh(body.data))
    ensures ok ==> body.Contents() == old(body.Contents()) + ([op] + MemArg(t))
    ensures !ok ==> |old(body.Contents())| + |[op] + MemArg(t)| > body.Limit()
  {
    ok := body.AppendByte(op);
    if ok {
      ok := body.AppendBytes(MemArg(t));
    }
  }

  method AppendThree(body: Buffer, a: Byte, b: Byte, c: Byte) returns (ok: bool)
    requires body.Valid()
    modifies body, body.data
    ensures body.Valid() && (body.data == old(body.data) || fresh(body.data))
    ensures ok ==> body.Contents() == old(body.Contents()) + [a, b, c]
    ensures !ok ==> |old(body.Contents())| + 3 > body.Limit()
  {
    ok := body.AppendByte(a);
    if ok {
      ok := body.AppendBytes([b, c]);
    }
  }

  method AppendConst(body: Buffer, op: Byte, c: int) returns (ok: bool)
    requires body.Valid() && -TWO63 <= c < TWO63
    modifies body, body.data
    ensures body.Valid() && (body.data == old(body.data) || fresh(body.data))
    ensures ok ==> body.Contents() == old(body.Contents()) + ([op] + Sleb(c))
    ensures !ok ==> |old(body.Contents())| + |[op] + Sleb(c)| > body.Limit()
  {
    ok := body.AppendByte(op);
    if ok {
      ok := body.AppendSleb(c);
    }
  }

  method AppendCode(body: Buffer, code: seq<Instr>) returns (ok: bool)
    requires body.Valid() && AllEncodable(code)
    requires Plain(code)
    modifies body, body.data
    ensures body.Valid() && (body.data == old(body.data) || fresh(body.data))
    ensures ok ==> body.Contents() == old(body.Contents()) + EncodeAll(code)
    ensures !ok ==> |old(body.Contents())| + |EncodeAll(code)| > body.Limit()
  {
    hide Encode, Encodable;
    var n := 0;
    ghost var before := body.Contents();
    while n < |code|
      invariant 0 <= n <= |code| && body.Valid() && (body.data == old(body.data) || fresh(body.data))
      invariant body.Contents() == before + EncodeAll(code[..n])
    {
      assert code == code[..n] + ([code[n]] + code[n + 1..]) && code[..n + 1] == code[..n] + [code[n]];
      EncodeConcat(code[..n], [code[n]] + code[n + 1..]);
      EncodeConcat([code[n]], code[n + 1..]);
      EncodeConcat(code[..n], [code[n]]);
      EncodeOne(code[n]);
      ok := AppendInstr(body, code[n]);
      if !ok {
        return;
      }
      n := n + 1;
    }
    assert code[..n] == code;
    ok := true;
  }

  // ---- straight-line instructions -----------------------------------------------------------

  lemma LocalFits(fn: Mir.Function, i: nat)
    requires i < ParamCount(fn)
    ensures LocalIndex(fn, i) + |SlotTypes(fn.localKinds[i])| <= FrameBase(fn) <= ScratchI32(fn)
  {
    var ks := fn.localKinds[..ParamCount(fn)];
    assert ks == ks[..i] + [ks[i]] + ks[i + 1..] && ks[..i] == fn.localKinds[..i];
    Slots.ExpandTypesConcat(ks[..i] + [ks[i]], ks[i + 1..]);
    Slots.ExpandTypesPush(ks[..i], ks[i]);
  }

  /** Code, then one tracked operand. */
  method EmitAndPush(body: Buffer, state: EmitState, code: seq<Instr>, k: Mir.Kind) returns (status: Status)
    requires body.Valid() && state.Valid() && AllEncodable(code)
    requires Plain(code)
    modifies body, body.data, state, state.kinds
    ensures body.Valid() && state.Valid() && (body.data == old(body.data) || fresh(body.data))
    ensures Wrote(old(body.Contents()), body.Limit(), body.Contents(), state.Stack(), status,
      PushKind(code, old(state.Stack()), k))
  {
    hide Encodable, EncodeAll;
    var ok := AppendCode(body, code);
    if !ok {
      return TooLarge;
    }
    var pushed := state.Push(k);
    return if pushed then Done else Refused(StackOverflow);
  }

  method EmitUnaryInst(tok: Mir.Token, body: Buffer, state: EmitState) returns (status: Status)
    requires body.Valid() && state.Valid()
    modifies body, body.data, state, state.kinds
    ensures body.Valid() && state.Valid() && (body.data == old(body.data) || fresh(body.data))
    ensures var ks := old(state.Stack());
      Wrote(old(body.Contents()), body.Limit(), body.Contents(), state.Stack(), status,
            if |ks| < 1 then Err(OperandMismatch) else EmitUnary(tok, ks[|ks| - 1], ks[..|ks| - 1]))
  {
    hide EncodeAll;
    var k := state.Pop();
    if k.None? {
      return Refused(OperandMismatch);
    }
    match (tok, k.value)
    case (_, KStr) => status := Refused(OperandMismatch);
    case (Add, _) => status := EmitAndPush(body, state, [], k.value);
    case (Not, KI32) => status := EmitAndPush(body, state, [Numeric(0x45)], Mir.KI32);
    case (Not, KI64) => status := EmitAndPush(body, state, [Numeric(0x50)], Mir.KI32);
    case (Sub, KI32) => status := EmitAndPush(body, state, [I32Const(-1), Numeric(0x6c)], k.value);
    case (Sub, KI64) => status := EmitAndPush(body, state, [I64Const(-1), Numeric(0x7e)], k.value);
    case _ => status := Refused(UnsupportedOperator);
  }

  method EmitBinaryInst(tok: Mir.Token, body: Buffer, state: EmitState) returns (status: Status)
    requires body.Valid() && state.Valid()
    modifies body, body.data, state, state.kinds
    ensures body.Valid() && state.Valid() && (body.data == old(body.data) || fresh(body.data))
    ensures var ks := old(state.Stack()); var n := |ks|;
      Wrote(old(body.Contents()), body.Limit(), body.Contents(), state.Stack(), status,
            if n < 2 then Err(OperandMismatch) else EmitBinary(tok, ks[n - 2], ks[n - 1], ks[..n - 2]))
  {
    hide EncodeAll, EmitBinary;
    ghost var ks := state.Stack();
    var right := state.Pop();
    if right.None? {
      return Refused(OperandMismatch);
    }
    var left := state.Pop();
    if left.None? {
      return Refused(OperandMismatch);
    }
    assert state.Stack() == ks[..|ks| - 2];
    status := EmitBinaryOpcode(tok, left.value, right.value, body, state);
  }

  method EmitBinaryOpcode(tok: Mir.Token, left: Mir.Kind, right: Mir.Kind, body: Buffer, state: EmitState)
      returns (status: Status)
    requires body.Valid() && state.Valid()
    modifies body, body.data, state, state.kinds
    ensures body.Valid() && state.Valid() && (body.data == old(body.data) || fresh(body.data))
    ensures Wrote(old(body.Contents()), body.Limit(), body.Contents(), state.Stack(), status,
      EmitBinary(tok, left, right, old(state.Stack())))
  {
    hide EncodeAll;
    if left == Mir.KI64 && right != Mir.KStr {
      status := EmitBinary64(tok, right, body, state);
    } else if left == Mir.KI32 && right == Mir.KI32 {
      var opcode := Opcode32(tok);
      if opcode.None? {
        return Refused(UnsupportedOperator);
      }
      status := EmitAndPush(body, state, [Numeric(opcode.value)], Mir.KI32);
    } else if left == Mir.KStr && right == Mir.KStr && (tok == Mir.Eq || tok == Mir.Neq) {
      status := EmitAndPush(body, state, StringEquality(tok == Mir.Neq), Mir.KI32);
    } else {
      status := Refused(OperandMismatch);
    }
  }

  /** A 32-bit right operand is widened first. */
  method EmitBinary64(tok: Mir.Token, right: Mir.Kind, body: Buffer, state: EmitState) returns (status: Status)
    requires body.Valid() && state.Valid() && right != Mir.KStr
    modifies body, body.data, state, state.kinds
    ensures body.Valid() && state.Valid() && (body.data == old(body.data) || fresh(body.data))
    ensures Wrote(old(body.Contents()), body.Limit(), body.Contents(), state.Stack(), status,
      EmitBinary(tok, Mir.KI64, right, old(state.Stack())))
  {
    hide EncodeAll;
    var opcode := Opcode64(tok);
    if opcode.None? {
      return Refused(UnsupportedOperator);
    }
    var code := if right == Mir.KI32 then [Numeric(0xac), Numeric(opcode.value)] else [Numeric(opcode.value)];
    status := EmitAndPush(body, state, code, if Mir.IsComparison(tok) then Mir.KI32 else Mir.KI64);
  }

  method EmitCastInst(target: Mir.Kind, body: Buffer, state: EmitState) returns (status: Status)
    requires body.Valid() && state.Valid()
    modifies body, body.data, state, state.kinds
    ensures body.Valid() && state.Valid() && (body.data == old(body.data) || fresh(body.data))
    ensures Wrote(old(body.Contents()), body.Limit(), body.Contents(), state.Stack(), status,
                  EmitSimple(Mir.Function([], [], [], None, None), Mir.Cast(target), old(state.Stack())))
  {
    hide EncodeAll;
    var k := state.Pop();
    if k.None? || !CanCast(k.value, target) {
      return Refused(OperandMismatch);
    }
    var code := if k.value == target then [] else if target == Mir.KI64 then [Numeric(0xac)] else [Numeric(0xa7)];
    status := EmitAndPush(body, state, code, target);
  }

  /** Code that leaves the tracked operands as they now are. */
  method EmitOnly(body: Buffer, state: EmitState, code: seq<Instr>) returns (status: Status)
    requires body.Valid() && state.Valid() && AllEncodable(code)
    requires Plain(code)
    modifies body, body.data
    ensures body.Valid() && state.Valid() && (body.data == old(body.data) || fresh(body.data))
      && state.Stack() == old(state.Stack())
    ensures Wrote(old(body.Contents()), body.Limit(), body.Contents(), state.Stack(), status, Ok(code, state.Stack()))
  {
    hide Encodable, EncodeAll;
    var ok := AppendCode(body, code);
    return if ok then Done else TooLarge;
  }

  method EmitLocalInst(fn: Mir.Function, inst: Mir.Inst, body: Buffer, state: EmitState) returns (status: Status)
    requires body.Valid() && state.Valid() && state.For(fn) && fn.frame.None?
      && (inst.LocalLoad? || inst.LocalStore? || inst.LocalZero?)
    modifies body, body.data, state, state.kinds
    ensures body.Valid() && state.Valid() && (body.data == old(body.data) || fresh(body.data))
    ensures Wrote(old(body.Contents()), body.Limit(), body.Contents(), state.Stack(), status,
      EmitSimple(fn, inst, old(state.Stack())))
  {
    hide EncodeAll, LocalIndex;
    if inst.slot >= |fn.localKinds| {
      return Refused(UnsupportedLocal);
    }
    LocalFits(fn, inst.slot);
    var k, x := fn.localKinds[inst.slot], state.wasmValueIndex[inst.slot];
    match inst
    case LocalLoad(_) => status := EmitAndPush(body, state, ReadLocal(k, x), k);
    case LocalStore(_) => status := EmitStore(k, x, body, state);
    case LocalZero(_) => status := EmitOnly(body, state, ZeroLocal(k, x));
  }

  method EmitStore(k: Mir.Kind, x: nat, body: Buffer, state: EmitState) returns (status: Status)
    requires body.Valid() && state.Valid() && x + |SlotTypes(k)| < TWO32
    modifies body, body.data, state, state.kinds
    ensures body.Valid() && state.Valid() && (body.data == old(body.data) || fresh(body.data))
    ensures var ks := old(state.Stack()); var n := |ks|;
      Wrote(old(body.Contents()), body.Limit(), body.Contents(), state.Stack(), status,
            if n < 1 || !Mir.Coercible(ks[n - 1], k) then Err(UnsupportedLocal)
              else Ok(Adapt(ks[n - 1], k) + WriteLocal(k, x), ks[..n - 1]))
  {
    hide EncodeAll;
    var v := state.Pop();
    if v.None? || !Mir.Coercible(v.value, k) {
      return Refused(UnsupportedLocal);
    }
    status := EmitOnly(body, state, Adapt(v.value, k) + WriteLocal(k, x));
  }

  // ---- locals in frame memory ---------------------------------------------------------------

  lemma Joined(a: seq<Instr>, b: seq<Instr>)
    requires AllEncodable(a) && Plain(a) && AllEncodable(b) && Plain(b)
    ensures AllEncodable(a + b) && Plain(a + b)
  {
    hide Encodable;
  }

  lemma WordCodeFits(fn: Mir.Function, offset: nat, x: nat, t: ValType)
    requires FrameBase(fn) < TWO31 && x < TWO31
    ensures AllEncodable(LoadWord(fn, offset, t)) && Plain(LoadWord(fn, offset, t))
    ensures AllEncodable(StoreWord(fn, offset, x, t)) && Plain(StoreWord(fn, offset, x, t))
    ensures AllEncodable(ZeroWord(fn, offset, t)) && Plain(ZeroWord(fn, offset, t))
  {
    hide FrameBase, FrameAddress;
    AddressFits(fn, offset);
    Joined(FrameAddress(fn, offset), [MemLoad(t)]);
    Joined(FrameAddress(fn, offset), [LocalGet(x), MemStore(t)]);
    Joined(FrameAddress(fn, offset), [if t == TI32 then I32Const(0) else I64Const(0), MemStore(t)]);
  }

  lemma AddressFits(fn: Mir.Function, offset: nat)
    requires FrameBase(fn) < TWO31
    ensures AllEncodable(FrameAddress(fn, offset)) && Plain(FrameAddress(fn, offset))
  {
  }

  lemma FrameCodeFits(fn: Mir.Function, k: Mir.Kind, offset: nat, x: nat)
    requires FrameBase(fn) <= 2 * MAX_LOCALS && x < 4 * MAX_LOCALS
    ensures AllEncodable(LoadFrame(fn, k, offset)) && Plain(LoadFrame(fn, k, offset))
    ensures AllEncodable(StoreLocal(fn, k, offset, x)) && Plain(StoreLocal(fn, k, offset, x))
    ensures AllEncodable(ZeroFrame(fn, k, offset)) && Plain(ZeroFrame(fn, k, offset))
  {
    hide FrameBase, LoadWord, StoreWord, ZeroWord, AllEncodable, Plain;
    var t := if k == Mir.KI64 then TI64 else TI32;
    WordCodeFits(fn, offset, x, t);
    if k == Mir.KStr {
      WordCodeFits(fn, offset + 4, x + 1, t);
      Joined(LoadWord(fn, offset, t), LoadWord(fn, offset + 4, t));
      Joined(StoreWord(fn, offset, x, t), StoreWord(fn, offset + 4, x + 1, t));
      Joined(ZeroWord(fn, offset, t), ZeroWord(fn, offset + 4, t));
    }
  }

  lemma WriteFits(k: Mir.Kind, x: nat)
    requires x + 1 < TWO31
    ensures AllEncodable(WriteLocal(k, x)) && Plain(WriteLocal(k, x))
  {
  }

  /** Parking a value and storing it. */
  lemma StoreCodeFits(fn: Mir.Function, from: Mir.Kind, k: Mir.Kind, offset: nat)
    requires FrameBase(fn) <= 2 * MAX_LOCALS
    ensures AllEncodable(Adapt(from, k) + StoreFrame(fn, k, offset))
      && Plain(Adapt(from, k) + StoreFrame(fn, k, offset))
  {
    hide FrameBase, StoreLocal, AllEncodable, Plain, WriteLocal, Adapt;
    var x := ResultLocal(fn, k);
    FrameCodeFits(fn, k, offset, x);
    WriteFits(k, x);
    Joined(WriteLocal(k, x), StoreLocal(fn, k, offset, x));
    WidenFits(from, k, StoreFrame(fn, k, offset));
  }

  predicate Plain(code: seq<Instr>) {
    forall i :: 0 <= i < |code| ==> !code[i].Block? && !code[i].Loop? && !code[i].If? && !code[i].IfElse?
  }

  method EmitFrameLocalInst(fn: Mir.Function, inst: Mir.Inst, body: Buffer, state: EmitState) returns (status: Status)
    requires body.Valid() && state.Valid() && state.For(fn) && fn.frame.Some?
      && (inst.LocalLoad? || inst.LocalStore? || inst.LocalZero?)
    modifies body, body.data, state, state.kinds
    ensures body.Valid() && state.Valid() && (body.data == old(body.data) || fresh(body.data))
    ensures Wrote(old(body.Contents()), body.Limit(), body.Contents(), state.Stack(), status,
      EmitFramed(fn, inst, old(state.Stack())))
  {
    hide EncodeAll, LoadFrame, StoreFrame, ZeroFrame, FrameBase, AllEncodable, EmitSimple, Wrote, PushKind, Plain;
    ghost var before, ks := body.Contents(), state.Stack();
    if inst.slot >= |fn.localKinds| {
      status := Refused(UnsupportedLocal);
      RefusedIs(before, body.Limit(), body.Contents(), state.Stack(), UnsupportedLocal);
      return;
    }
    var k, offset := fn.localKinds[inst.slot], fn.frame.value.offsets[inst.slot];
    FrameCodeFits(fn, k, offset, 0);
    if inst.LocalLoad? {
      status := EmitAndPush(body, state, LoadFrame(fn, k, offset), k);
    } else if inst.LocalZero? {
      status := EmitOnly(body, state, ZeroFrame(fn, k, offset));
    } else {
      status := EmitFrameStore(fn, k, offset, body, state);
    }
  }

  lemma RefusedIs(before: seq<Byte>, limit: nat, contents: seq<Byte>, stack: Kinds, e: EmitError)
    ensures Wrote(before, limit, contents, stack, Refused(e), Err(e))
  {
  }

  method EmitFrameStore(fn: Mir.Function, k: Mir.Kind, offset: nat, body: Buffer, state: EmitState)
      returns (status: Status)
    requires body.Valid() && state.Valid() && FrameBase(fn) <= 2 * MAX_LOCALS
    modifies body, body.data, state, state.kinds
    ensures body.Valid() && state.Valid() && (body.data == old(body.data) || fresh(body.data))
    ensures var ks := old(state.Stack()); var n := |ks|;
      Wrote(old(body.Contents()), body.Limit(), body.Contents(), state.Stack(), status,
            if n < 1 || !Mir.Coercible(ks[n - 1], k) then Err(UnsupportedLocal)
              else Ok(Adapt(ks[n - 1], k) + StoreFrame(fn, k, offset), ks[..n - 1]))
  {
    hide EncodeAll, StoreFrame, FrameBase, AllEncodable, Adapt, Plain;
    var v := state.Pop();
    if v.None? || !Mir.Coercible(v.value, k) {
      return Refused(UnsupportedLocal);
    }
    StoreCodeFits(fn, v.value, k, offset);
    status := EmitOnly(body, state, Adapt(v.value, k) + StoreFrame(fn, k, offset));
  }

  lemma WidenFits(from: Mir.Kind, to: Mir.Kind, code: seq<Instr>)
    requires AllEncodable(code) && Plain(code)
    ensures AllEncodable(Adapt(from, to) + code) && Plain(Adapt(from, to) + code)
  {
  }

  /** Comparing strings in real scratch locals, or setting a 64-bit right operand aside. */
  method EmitFrameBinaryInst(fn: Mir.Function, tok: Mir.Token, body: Buffer, state: EmitState) returns (status: Status)
    requires body.Valid() && state.Valid() && state.For(fn) && fn.frame.Some?
    modifies body, body.data, state, state.kinds
    ensures body.Valid() && state.Valid() && (body.data == old(body.data) || fresh(body.data))
    ensures Wrote(old(body.Contents()), body.Limit(), body.Contents(), state.Stack(), status,
      EmitFramed(fn, Mir.Binary(tok), old(state.Stack())))
  {
    hide EncodeAll, EmitBinary, CompareStrings, FrameBase, AllEncodable, Plain, LoadFrame, StoreFrame, ZeroFrame;
    ghost var ks := state.Stack();
    var right := state.Pop();
    if right.None? {
      return Refused(OperandMismatch);
    }
    var left := state.Pop();
    if left.None? {
      return Refused(OperandMismatch);
    }
    assert state.Stack() == ks[..|ks| - 2];
    var s := state.frameBase + 1;
    if left.value == Mir.KStr && right.value == Mir.KStr && (tok == Mir.Eq || tok == Mir.Neq) {
      CompareFits(s, tok == Mir.Neq);
      status := EmitAndPush(body, state, CompareStrings(s, s + 1, s + 2, s + 3, tok == Mir.Neq), Mir.KI32);
    } else if left.value == Mir.KI32 && right.value == Mir.KI64 {
      var opcode := Opcode64(tok);
      if opcode.None? {
        return Refused(UnsupportedOperator);
      }
      var w := state.frameBase + 8;
      AsideFits(w, opcode.value);
      status := EmitAndPush(body, state, [LocalSet(w), Numeric(0xac), LocalGet(w), Numeric(opcode.value)],
                            if Mir.IsComparison(tok) then Mir.KI32 else Mir.KI64);
    } else {
      status := EmitBinaryOpcode(tok, left.value, right.value, body, state);
    }
  }

  lemma AsideFits(w: nat, opcode: Byte)
    requires w < TWO31 && 0x45 <= opcode <= 0xbf
    ensures var code := [LocalSet(w), Numeric(0xac), LocalGet(w), Numeric(opcode)]; AllEncodable(code) && Plain(code)
  {
  }

  lemma CompareFits(s: nat, negate: bool)
    requires s < TWO31
    ensures AllEncodable(CompareStrings(s, s + 1, s + 2, s + 3, negate))
      && Plain(CompareStrings(s, s + 1, s + 2, s + 3, negate))
  {
    var tail := if negate then [Numeric(0x45)] else [];
    var all := CompareStrings(s, s + 1, s + 2, s + 3, negate);
    assert all == all[..11] + tail;
    Joined(all[..11], tail);
  }

  // ---- other instructions ---------------------------------------------------------------------

  method EmitDropInst(body: Buffer, state: EmitState) returns (status: Status)
    requires body.Valid() && state.Valid()
    modifies body, body.data, state, state.kinds
    ensures body.Valid() && state.Valid() && (body.data == old(body.data) || fresh(body.data))
    ensures Wrote(old(body.Contents()), body.Limit(), body.Contents(), state.Stack(), status,
                  EmitSimple(Mir.Function([], [], [], None, None), Mir.Drop, old(state.Stack())))
  {
    hide EncodeAll;
    if state.stackLen == 0 {
      status := EmitOnly(body, state, []);
    } else {
      var k := state.Pop();
      status := EmitOnly(body, state, if k.value == Mir.KStr then [Drop, Drop] else [Drop]);
    }
  }

  /** The trap of a failed assertion, written out with its own `if`. */
  method EmitAssertInst(body: Buffer, state: EmitState) returns (status: Status)
    requires body.Valid() && state.Valid()
    modifies body, body.data, state, state.kinds
    ensures body.Valid() && state.Valid() && (body.data == old(body.data) || fresh(body.data))
    ensures Wrote(old(body.Contents()), body.Limit(), body.Contents(), state.Stack(), status,
                  EmitSimple(Mir.Function([], [], [], None, None), Mir.Assert, old(state.Stack())))
  {
    var k := state.Pop();
    if k.None? || k.value != Mir.KI32 {
      return Refused(OperandMismatch);
    }
    AssertBytes();
    var ok := body.AppendBytes([0x45, 0x04, EMPTY, 0x00, END]);
    return if ok then Done else TooLarge;
  }

  lemma AssertBytes()
    ensures EncodeAll([Numeric(0x45), If([Unreachable])]) == [0x45, 0x04, EMPTY, 0x00, END]
  {
    assert [Numeric(0x45), If([Unreachable])] == [Numeric(0x45)] + [If([Unreachable])];
    EncodeConcat([Numeric(0x45)], [If([Unreachable])]);
    EncodeOne(Numeric(0x45)); EncodeOne(If([Unreachable])); EncodeOne(Unreachable);
  }

  // ---- calls --------------------------------------------------------------------------------

  /** The whole plan, from the part already carried out and the plan for the first arguments. */
  function Extend(code: seq<Instr>, homes: seq<nat>, rest: ArgPlan): ArgPlan {
    if rest.NoPlan? then NoPlan else Plan(code + rest.code, rest.homes + homes)
  }

  lemma PlanStep(fn: Mir.Function, params: Kinds, actual: Kinds, next32: nat, next64: nat, code: seq<Instr>,
      homes: seq<nat>)
    requires |params| == |actual| > 0
    ensures var n := |params| - 1; var k := params[n]; var home := HomeFor(fn, k, next32, next64);
      Extend(code, homes, PlanArgs(fn, params, actual, next32, next64))
      == if !Mir.Coercible(actual[n], k) || home.None? then NoPlan
         else Extend(code + (Adapt(actual[n], k) + WriteLocal(k, home.value)), [home.value] + homes,
                     PlanArgs(fn, params[..n], actual[..n], next32 + Cells32(k), next64 + Cells64(k)))
  {
    hide Adapt, WriteLocal, HomeFor, Cells32, Cells64;
    var n := |params| - 1;
    var k := params[n];
    var home := HomeFor(fn, k, next32, next64);
    var rest := PlanArgs(fn, params[..n], actual[..n], next32 + Cells32(k), next64 + Cells64(k));
    if Mir.Coercible(actual[n], k) && home.Some? && rest.Plan? {
      assert code + (Adapt(actual[n], k) + WriteLocal(k, home.value) + rest.code)
        == code + (Adapt(actual[n], k) + WriteLocal(k, home.value)) + rest.code;
      assert rest.homes + [home.value] + homes == rest.homes + ([home.value] + homes);
    }
  }

  /** What parking `n` arguments leaves behind. */
  ghost predicate Parked(before: seq<Byte>, limit: nat, contents: seq<Byte>, ks: Kinds, n: nat, stack: Kinds,
      status: Status, homes: seq<nat>, plan: ArgPlan) {
    match status
    case Done => n <= |ks| && plan.Plan? && plan.homes == homes && contents == before + EncodeAll(plan.code)
      && stack == ks[..|ks| - n]
    case Refused(e) => e == UnsupportedCall && (n <= |ks| ==> plan.NoPlan?)
    case TooLarge => plan.Plan? ==> |before| + |EncodeAll(plan.code)| > limit
  }

  function PlanFor(fn: Mir.Function, params: Kinds, ks: Kinds): ArgPlan {
    if |params| > |ks| then NoPlan else PlanArgs(fn, params, ks[|ks| - |params|..], 0, 0)
  }

  /** Parks one argument; its kind has been popped. */
  method ParkArg(fn: Mir.Function, k: Mir.Kind, actual: Mir.Kind, home: nat, body: Buffer) returns (ok: bool)
    requires body.Valid() && home + 1 < TWO32
    modifies body, body.data
    ensures body.Valid() && (body.data == old(body.data) || fresh(body.data))
    ensures ok ==> body.Contents() == old(body.Contents()) + EncodeAll(Adapt(actual, k) + WriteLocal(k, home))
    ensures !ok ==> |old(body.Contents())| + |EncodeAll(Adapt(actual, k) + WriteLocal(k, home))| > body.Limit()
  {
    hide EncodeAll;
    ok := AppendCode(body, Adapt(actual, k) + WriteLocal(k, home));
  }

  lemma EncodeStep(before: seq<Byte>, a: seq<Instr>, b: seq<Instr>)
    ensures before + EncodeAll(a + b) == before + EncodeAll(a) + EncodeAll(b)
    ensures |before + EncodeAll(a)| + |EncodeAll(b)| == |before| + |EncodeAll(a + b)|
  {
    EncodeConcat(a, b);
  }

  /** `code` parks the arguments from `i` on in `homes`, and `plan` is that followed by the plan for the others. */
  ghost predicate Pending(fn: Mir.Function, params: Kinds, ks: Kinds, i: nat, next32: nat, next64: nat,
      code: seq<Instr>, homes: seq<nat>) {
    && i <= |params| && |params| - i <= |ks| && |homes| == |params| - i
    && (|params| <= |ks| ==>
          PlanFor(fn, params, ks)
            == Extend(code, homes, PlanArgs(fn, params[..i], ks[|ks| - |params|..][..i], next32, next64)))
  }

  lemma PendingStep(fn: Mir.Function, params: Kinds, ks: Kinds, i: nat, next32: nat, next64: nat, code: seq<Instr>,
      homes: seq<nat>)
    requires Pending(fn, params, ks, i, next32, next64, code, homes) && 0 < i && |params| - i < |ks|
    ensures var k := params[i - 1]; var actual := ks[|ks| - (|params| - i) - 1]; var home := HomeFor(fn, k, next32,
      next64);
      if Mir.Coercible(actual, k) && home.Some? then
        var code' := code + (Adapt(actual, k) + WriteLocal(k, home.value));
        && Pending(fn, params, ks, i - 1, next32 + Cells32(k), next64 + Cells64(k), code', [home.value] + homes)
        && (PlanFor(fn, params, ks).Plan? ==> code' <= PlanFor(fn, params, ks).code)
      else PlanFor(fn, params, ks).NoPlan?
  {
    hide Adapt, WriteLocal, HomeFor, Cells32, Cells64;
    if |params| <= |ks| {
      var actual := ks[|ks| - |params|..];
      PlanStep(fn, params[..i], actual[..i], next32, next64, code, homes);
      assert params[..i][..i - 1] == params[..i - 1] && actual[..i][..i - 1] == actual[..i - 1];
    }
  }

  /** Pops the arguments from the last to the first, parking each in a scratch local of its own. */
  method ParkArgs(fn: Mir.Function, params: Kinds, body: Buffer, state: EmitState)
      returns (status: Status, homes: seq<nat>)
    requires body.Valid() && state.Valid() && state.For(fn)
    modifies body, body.data, state
    ensures body.Valid() && state.Valid() && (body.data == old(body.data) || fresh(body.data))
    ensures Parked(old(body.Contents()), body.Limit(), body.Contents(), old(state.Stack()), |params|, state.Stack(),
      status, homes,
                   PlanFor(fn, params, old(state.Stack())))
    ensures (forall h :: h in homes ==> h + 1 < TWO32) && (status.Done? ==> |homes| == |params|)
  {
    hide EncodeAll, PlanArgs, Adapt, WriteLocal, LocalIndex, HomeFor, Pending, PlanFor;
    ghost var ks, before, n := state.Stack(), body.Contents(), |params|;
    ghost var code: seq<Instr> := [];
    var next32: nat, next64: nat := 0, 0;
    var i := |params|;
    homes := [];
    NothingYet(fn, params, ks);
    while i > 0
      invariant 0 <= i <= n && n - i <= |ks| && |homes| == n - i
      invariant body.Valid() && state.Valid() && (body.data == old(body.data) || fresh(body.data))
      invariant state.Stack() == ks[..|ks| - (n - i)] && body.Contents() == before + EncodeAll(code)
      invariant Pending(fn, params, ks, i, next32, next64, code, homes)
      invariant next32 <= CALL_SCRATCH_I32 && next64 <= CALL_SCRATCH_I64 && forall h :: h in homes ==> h + 1 < TWO32
    {
      var k := params[i - 1];
      var arg := state.Pop();
      if arg.None? {
        return Refused(UnsupportedCall), homes;
      }
      PendingStep(fn, params, ks, i, next32, next64, code, homes);
      var home := HomeIn(state, k, next32, next64);
      if !Mir.Coercible(arg.value, k) || home.None? {
        return Refused(UnsupportedCall), homes;
      }
      HomeBounds(fn, k, next32, next64);
      EncodeStep(before, code, Adapt(arg.value, k) + WriteLocal(k, home.value));
      var ok := ParkArg(fn, k, arg.value, home.value, body);
      if !ok {
        StillTooLarge(before, code + (Adapt(arg.value, k) + WriteLocal(k, home.value)), PlanFor(fn, params, ks),
          body.Limit());
        return TooLarge, homes;
      }
      code := code + (Adapt(arg.value, k) + WriteLocal(k, home.value));
      homes := [home.value] + homes;
      next32, next64 := next32 + Cells32(k), next64 + Cells64(k);
      i := i - 1;
    }
    AllPlanned(fn, params, ks, next32, next64, code, homes);
    status := Done;
  }

  /** The next free scratch local of the right type, from the planned start of the scratch area. */
  method HomeIn(state: EmitState, k: Mir.Kind, next32: nat, next64: nat) returns (home: Option<nat>)
    ensures forall fn {:trigger state.For(fn)} :: state.For(fn) ==> home == HomeFor(fn, k, next32, next64)
  {
    if k == Mir.KI64 {
      home := if next64 >= CALL_SCRATCH_I64 then None else Some(state.scratchI64 + next64);
    } else {
      home := if next32 + Cells32(k) > CALL_SCRATCH_I32 then None else Some(state.scratchI32 + next32);
    }
  }

  lemma HomeBounds(fn: Mir.Function, k: Mir.Kind, next32: nat, next64: nat)
    requires ScratchI32(fn) <= 2 * MAX_LOCALS + HIDDEN_LOCALS && HomeFor(fn, k, next32, next64).Some?
      && next32 <= CALL_SCRATCH_I32 && next64 <= CALL_SCRATCH_I64
    ensures HomeFor(fn, k, next32, next64).value + 1 < TWO32
    ensures next32 + Cells32(k) <= CALL_SCRATCH_I32 && next64 + Cells64(k) <= CALL_SCRATCH_I64
  {
  }

  lemma NothingYet(fn: Mir.Function, params: Kinds, ks: Kinds)
    ensures Pending(fn, params, ks, |params|, 0, 0, [], []) && EncodeAll([]) == []
  {
    hide PlanArgs;
    if |params| <= |ks| {
      var actual := ks[|ks| - |params|..];
      var plan := PlanFor(fn, params, ks);
      assert params[..|params|] == params && actual[..|params|] == actual;
      assert plan.Plan? ==> [] + plan.code == plan.code && plan.homes + [] == plan.homes;
    }
  }

  lemma AllPlanned(fn: Mir.Function, params: Kinds, ks: Kinds, next32: nat, next64: nat, code: seq<Instr>,
      homes: seq<nat>)
    requires Pending(fn, params, ks, 0, next32, next64, code, homes)
    ensures |params| <= |ks| && PlanFor(fn, params, ks) == Plan(code, homes)
  {
    assert params[..0] == [];
    assert code + [] == code && [] + homes == homes;
  }

  lemma StillTooLarge(before: seq<Byte>, code: seq<Instr>, plan: ArgPlan, limit: nat)
    requires |before| + |EncodeAll(code)| > limit && (plan.Plan? ==> code <= plan.code)
    ensures plan.Plan? ==> |before| + |EncodeAll(plan.code)| > limit
  {
    if plan.Plan? {
      assert plan.code == code + plan.code[|code|..];
      EncodeConcat(code, plan.code[|code|..]);
    }
  }

  /** Loads the parked arguments back from the first to the last. */
  method ReloadAll(params: Kinds, homes: seq<nat>, body: Buffer) returns (ok: bool)
    requires body.Valid() && |params| == |homes| && forall h :: h in homes ==> h + 1 < TWO32
    modifies body, body.data
    ensures body.Valid() && (body.data == old(body.data) || fresh(body.data))
    ensures ok ==> body.Contents() == old(body.Contents()) + EncodeAll(ReloadArgs(params, homes))
    ensures !ok ==> |old(body.Contents())| + |EncodeAll(ReloadArgs(params, homes))| > body.Limit()
  {
    hide EncodeAll, ReloadArgs, ReadLocal;
    ghost var before := body.Contents();
    var i := 0;
    NothingReloaded();
    assert params[..0] == [] && homes[..0] == [];
    while i < |params|
      invariant 0 <= i <= |params| && body.Valid() && (body.data == old(body.data) || fresh(body.data))
      invariant body.Contents() == before + EncodeAll(ReloadArgs(params[..i], homes[..i]))
    {
      ReloadNext(params, homes, i);
      EncodeStep(before, ReloadArgs(params[..i], homes[..i]), ReadLocal(params[i], homes[i]));
      assert homes[i] in homes;
      ok := ReloadOne(body, params[i], homes[i]);
      if !ok {
        ReloadPrefix(params, homes, i + 1);
        return;
      }
      i := i + 1;
    }
    assert params[..i] == params && homes[..i] == homes;
    ok := true;
  }

  method ReloadOne(body: Buffer, k: Mir.Kind, home: nat) returns (ok: bool)
    requires body.Valid() && home + 1 < TWO32
    modifies body, body.data
    ensures body.Valid() && (body.data == old(body.data) || fresh(body.data))
    ensures ok ==> body.Contents() == old(body.Contents()) + EncodeAll(ReadLocal(k, home))
    ensures !ok ==> |old(body.Contents())| + |EncodeAll(ReadLocal(k, home))| > body.Limit()
  {
    hide EncodeAll;
    ok := AppendCode(body, ReadLocal(k, home));
  }

  lemma NothingReloaded()
    ensures EncodeAll(ReloadArgs([], [])) == []
  {
  }

  lemma ReloadNext(params: Kinds, homes: seq<nat>, i: nat)
    requires |params| == |homes| && i < |params|
    ensures ReloadArgs(params[..i + 1], homes[..i + 1])
      == ReloadArgs(params[..i], homes[..i]) + ReadLocal(params[i], homes[i])
  {
    assert params[..i + 1][..i] == params[..i] && homes[..i + 1][..i] == homes[..i];
  }

  /** What is written for the first arguments is no longer than what is written for all. */
  lemma {:induction false} ReloadPrefix(params: Kinds, homes: seq<nat>, i: nat)
    requires |params| == |homes| && i <= |params|
    ensures |EncodeAll(ReloadArgs(params[..i], homes[..i]))| <= |EncodeAll(ReloadArgs(params, homes))|
    decreases |params| - i
  {
    hide EncodeAll, ReadLocal, ReloadArgs;
    if i < |params| {
      ReloadNext(params, homes, i);
      EncodeConcat(ReloadArgs(params[..i], homes[..i]), ReadLocal(params[i], homes[i]));
      ReloadPrefix(params, homes, i + 1);
    } else {
      assert params[..i] == params && homes[..i] == homes;
    }
  }

  /** What follows the parked arguments. */
  method ReloadAndCall(f: nat, params: Kinds, homes: seq<nat>, body: Buffer) returns (ok: bool)
    requires body.Valid() && f < TWO32 && |params| == |homes| && forall h :: h in homes ==> h + 1 < TWO32
    modifies body, body.data
    ensures body.Valid() && (body.data == old(body.data) || fresh(body.data))
    ensures ok ==> body.Contents() == old(body.Contents()) + EncodeAll(ReloadArgs(params, homes) + [Call(f)])
    ensures !ok ==> |old(body.Contents())| + |EncodeAll(ReloadArgs(params, homes) + [Call(f)])| > body.Limit()
  {
    hide EncodeAll, ReloadArgs;
    EncodeStep(body.Contents(), ReloadArgs(params, homes), [Call(f)]);
    EncodeOne(Call(f));
    ok := ReloadAll(params, homes, body);
    if ok {
      ok := AppendInstr(body, Call(f));
    }
  }

  method EmitCallInst(fn: Mir.Function, f: nat, argc: nat, body: Buffer, state: EmitState) returns (status: Status)
    requires body.Valid() && state.Valid() && state.For(fn)
    modifies body, body.data, state, state.kinds
    ensures body.Valid() && state.Valid() && (body.data == old(body.data) || fresh(body.data))
    ensures Wrote(old(body.Contents()), body.Limit(), body.Contents(), state.Stack(), status,
      EmitCall(fn, f, argc, old(state.Stack())))
  {
    hide EncodeAll, PlanArgs, ReloadArgs;
    if f >= |fn.sigs| {
      return Refused(UnsupportedCall);
    }
    var params := fn.sigs[f].params;
    if argc != |params| || argc > MAX_ARGS {
      return Refused(UnsupportedCall);
    }
    ghost var ks, before := state.Stack(), body.Contents();
    ghost var plan := PlanFor(fn, params, ks);
    if plan.Plan? {
      var tail := ReloadArgs(params, plan.homes) + [Call(f)];
      EncodeStep(before, plan.code, tail);
      assert plan.code + ReloadArgs(params, plan.homes) + [Call(f)] == plan.code + tail;
    }
    var parked, homes := ParkArgs(fn, params, body, state);
    if !parked.Done? {
      return parked;
    }
    var ok := ReloadAndCall(f, params, homes, body);
    if !ok {
      return TooLarge;
    }
    match fn.sigs[f].result
    case None => status := Done;
    case Some(k) =>
      var pushed := state.Push(k);
      status := if pushed then Done else Refused(StackOverflow);
  }

  // ---- recognising loops --------------------------------------------------------------------

  method FindLastForwardTarget(fn: Mir.Function, first: nat, exit: nat) returns (best: nat)
    requires exit <= |fn.insts|
    ensures best == LastForwardTarget(fn, first, exit, 0)
  {
    best := 0;
    var scan := first;
    while scan + 1 < exit
      invariant LastForwardTarget(fn, scan, exit, best) == LastForwardTarget(fn, first, exit, 0)
      decreases exit - scan
    {
      var inst := fn.insts[scan];
      if inst.Jump? && scan < inst.dest < exit && inst.dest > best {
        best := inst.dest;
      }
      scan := scan + 1;
    }
  }

  method FindLoopRegion(fn: Mir.Function, start: nat, end: nat) returns (r: Option<Region>)
    requires end <= |fn.insts|
    ensures r == FindLoop(fn, start, end)
  {
    var pc := start;
    while pc < end
      invariant FindLoopFrom(fn, start, end, pc) == FindLoop(fn, start, end)
    {
      var inst := fn.insts[pc];
      if inst.JumpIfFalse? && pc + 1 < inst.dest <= end && pc + 1 < inst.dest - 1
         && fn.insts[inst.dest - 1] == Mir.Jump(start) {
        var tail := FindLastForwardTarget(fn, pc + 1, inst.dest);
        return Some(Region(start, pc, if tail != 0 then tail else inst.dest - 1, inst.dest - 1, inst.dest));
      }
      pc := pc + 1;
    }
    r := None;
  }

  method CheckBodyJumps(fn: Mir.Function, start: nat, backedge: nat) returns (ok: bool)
    requires backedge <= |fn.insts|
    ensures ok == BodyJumpsOk(fn, start, backedge, start)
  {
    var pc := start;
    while pc < backedge
      invariant BodyJumpsOk(fn, start, backedge, pc) == BodyJumpsOk(fn, start, backedge, start)
    {
      if !BodyJumpOk(fn, start, backedge, pc) {
        return false;
      }
      pc := pc + 1;
    }
    ok := true;
  }

  method FindUnconditionalLoop(fn: Mir.Function, start: nat, end: nat) returns (r: Option<nat>)
    requires end <= |fn.insts|
    ensures r == FindBackedge(fn, start, end)
  {
    var bound: nat := end;
    while bound > start + 1
      invariant FindBackedge(fn, start, bound) == FindBackedge(fn, start, end) && bound <= end
    {
      var backedge := bound - 1;
      if fn.insts[backedge] == Mir.Jump(start) {
        var ok := CheckBodyJumps(fn, start, backedge);
        if ok {
          return Some(backedge);
        }
      }
      bound := backedge;
    }
    r := None;
  }

  /** A loop with a condition is preferred; a range's own continue target is not a loop header again. */
  method RecogniseConstruct(fn: Mir.Function, t: Targets, s: nat, e: nat) returns (r: ConstructKind)
    requires s < e <= |fn.insts|
    ensures r == KindAt(fn, t, s, e)
  {
    FindLoopFromBounds(fn, s, e, s);
    FindBackedgeBounds(fn, s, e);
    var allowLoop := !(t.continue_.Some? && t.continue_.value.pc == s);
    if allowLoop {
      var region := FindLoopRegion(fn, s, e);
      if region.Some? {
        return AWhile(region.value);
      }
      var backedge := FindUnconditionalLoop(fn, s, e);
      if backedge.Some? {
        return AForever(backedge.value);
      }
    }
    return if fn.insts[s].JumpIfFalse? then ABranch else ALeaf;
  }
}
