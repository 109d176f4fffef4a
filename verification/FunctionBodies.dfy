/**
 * One function body from MIR to bytes: local declarations, code, `end`. What the bytes say,
 * once parsed, is simulated by the flat machine and the other way round.
 */
module FunctionBodies {
  import opened Words
  import M = Mir
  import W = Wasm
  import opened StackMap
  import opened Emitter
  import opened Slots
  import opened Leb
  import opened Binary
  import opened Buffers
  import opened Framing
  import opened EmitterMethods
  import opened RangeMethods
  import opened EmittedFits
  import opened Straightline
  import opened Compiler
  import opened FrameEntry

  const MAX_DECLARED := 512

  function TypeBytes(ts: seq<W.ValType>): (bs: seq<Byte>)
    ensures |bs| == |ts|
  {
    if ts == [] then [] else [TypeByte(ts[0])] + TypeBytes(ts[1..])
  }

  /** How many parameters there are; a frame records it, otherwise the caller says. */
  predicate CountsParams(fn: M.Function, paramCount: nat) {
    paramCount <= |fn.localKinds| && (fn.frame.Some? ==> paramCount == ParamCount(fn))
  }

  /** The locals beyond the parameters, or the hidden ones of a function with a frame, and the call
      scratch area when a call passes arguments. */
  function DeclaredTypes(fn: M.Function, paramCount: nat): seq<Byte>
    requires paramCount <= |fn.localKinds|
  {
    (if fn.frame.None? then TypeBytes(W.ExpandTypes(fn.localKinds[paramCount..])) else Repeat(8, 0x7f) + [0x7e])
    + if NeedsCallScratch(fn) then Repeat(CALL_SCRATCH_I32, 0x7f) + Repeat(CALL_SCRATCH_I64, 0x7e) else []
  }

  function FunctionBytes(fn: M.Function, paramCount: nat): Option<seq<Byte>>
    requires paramCount <= |fn.localKinds|
  {
    if |fn.localKinds| > MAX_LOCALS || |DeclaredTypes(fn, paramCount)| > MAX_DECLARED || EmitBody(fn).Err? then None
    else Some(EncodeDecls(DeclaredTypes(fn, paramCount)) + EncodeAll(EmitBody(fn).code) + [END])
  }

  // ---- the method ---------------------------------------------------------------------------

  method NeedsDirectCallScratch(fn: M.Function) returns (needed: bool)
    ensures needed == NeedsCallScratch(fn)
  {
    var pc := 0;
    while pc < |fn.insts|
      invariant 0 <= pc <= |fn.insts| && forall j :: 0 <= j < pc ==> !(fn.insts[j].CallFn? && fn.insts[j].argc > 0)
    {
      if fn.insts[pc].CallFn? && fn.insts[pc].argc > 0 {
        return true;
      }
      pc := pc + 1;
    }
    needed := false;
  }

  lemma {:induction false} TypeBytesConcat(a: seq<W.ValType>, b: seq<W.ValType>)
    ensures TypeBytes(a + b) == TypeBytes(a) + TypeBytes(b)
  {
    if a == [] {
      assert a + b == b;
    } else {
      assert (a + b)[0] == a[0] && (a + b)[1..] == a[1..] + b;
      TypeBytesConcat(a[1..], b);
    }
  }

  lemma TypeBytesOfKind(k: M.Kind)
    ensures TypeBytes(W.SlotTypes(k)) == match k case KStr => [0x7f, 0x7f] case KI32 => [0x7f] case KI64 => [0x7e]
  {
    assert TypeBytes([]) == [];
  }

  lemma NoTypes()
    ensures TypeBytes(W.ExpandTypes([])) == []
  {
  }

  /** The types of the locals that are not parameters, one after the other. */
  method ListLocalTypes(fn: M.Function, paramCount: nat) returns (table: seq<Byte>)
    requires paramCount <= |fn.localKinds| <= MAX_LOCALS
    ensures table == TypeBytes(W.ExpandTypes(fn.localKinds[paramCount..])) && |table| <= 2 * MAX_LOCALS
  {
    hide W.ExpandTypes, TypeBytes, W.SlotTypes;
    table := [];
    NoTypes();
    var i := paramCount;
    ghost var kinds := fn.localKinds[paramCount..];
    assert kinds[..0] == [];
    while i < |fn.localKinds|
      invariant paramCount <= i <= |fn.localKinds| && table == TypeBytes(W.ExpandTypes(kinds[..i - paramCount]))
      invariant |table| <= 2 * (i - paramCount)
    {
      var k := fn.localKinds[i];
      ghost var done := kinds[..i - paramCount];
      assert kinds[..i + 1 - paramCount] == done + [k];
      ExpandTypesPush(done, k);
      TypeBytesConcat(W.ExpandTypes(done), W.SlotTypes(k));
      TypeBytesOfKind(k);
      if |table| + 2 > MAX_DECLARED {
        // the table never fills up before the scratch area is added
        assert false;
      }
      table := table + (match k case KStr => [0x7f, 0x7f] case KI32 => [0x7f] case KI64 => [0x7e]);
      i := i + 1;
    }
    assert kinds[..i - paramCount] == kinds;
  }

  /** The value types to declare, or None when there are more than the fixed table holds. */
  method DeclareLocals(fn: M.Function, paramCount: nat) returns (types: Option<seq<Byte>>)
    requires paramCount <= |fn.localKinds| <= MAX_LOCALS
    ensures types == if |DeclaredTypes(fn, paramCount)| > MAX_DECLARED then None
      else Some(DeclaredTypes(fn, paramCount))
  {
    hide W.ExpandTypes, NeedsCallScratch, TypeBytes, Repeat;
    var table: seq<Byte>;
    if fn.frame.Some? {
      table := Repeat(8, 0x7f) + [0x7e];
    } else {
      table := ListLocalTypes(fn, paramCount);
    }
    assert table + [] == table;
    var scratch := NeedsDirectCallScratch(fn);
    if scratch {
      if |table| + CALL_SCRATCH_I32 + CALL_SCRATCH_I64 > MAX_DECLARED {
        return None;
      }
      table := table + (Repeat(CALL_SCRATCH_I32, 0x7f) + Repeat(CALL_SCRATCH_I64, 0x7e));
    }
    types := Some(table);
  }

  /** Takes the frame and stores each parameter in its slot. */
  method EmitPrologue(fn: M.Function, body: Buffer, state: EmitState) returns (ok: bool)
    requires body.Valid() && state.For(fn) && fn.frame.Some?
    modifies body, body.data
    ensures body.Valid() && (body.data == old(body.data) || fresh(body.data))
    ensures ok ==> body.Contents() == old(body.Contents()) + EncodeAll(Prologue(fn))
    ensures !ok ==> |old(body.Contents())| + |EncodeAll(Prologue(fn))| > body.Limit()
  {
    hide EncodeAll, AllEncodable, Plain, StoreLocal, TakeFrame, FrameBase;
    ghost var before := body.Contents();
    var n, count := 0, |state.wasmValueIndex|;
    TakeFits(fn);
    PrologueParts(fn, 0);
    EncodeStep(before, TakeFrame(fn), SpillParams(fn, count));
    ok := AppendCode(body, TakeFrame(fn));
    if !ok {
      return;
    }
    assert SpillParams(fn, 0) == [];
    assert TakeFrame(fn) + [] == TakeFrame(fn);
    while n < count
      invariant 0 <= n <= count && body.Valid() && (body.data == old(body.data) || fresh(body.data))
      invariant body.Contents() == before + EncodeAll(TakeFrame(fn) + SpillParams(fn, n))
    {
      var k, offset := fn.localKinds[n], fn.frame.value.offsets[n];
      LocalFits(fn, n);
      FrameCodeFits(fn, k, offset, state.wasmValueIndex[n]);
      PrologueParts(fn, n);
      PrologueParts(fn, n + 1);
      SpillNext(fn, n);
      var store := StoreLocal(fn, k, offset, state.wasmValueIndex[n]);
      EncodeStep(before, TakeFrame(fn) + SpillParams(fn, n), store);
      ok := AppendCode(body, store);
      if !ok {
        return;
      }
      n := n + 1;
    }
    ok := true;
  }

  lemma TakeFits(fn: M.Function)
    requires SizesFit(fn) && fn.frame.Some? && FrameBase(fn) <= 2 * MAX_LOCALS
    ensures AllEncodable(TakeFrame(fn)) && Plain(TakeFrame(fn))
  {
    hide FrameBase;
  }

  lemma SpillNext(fn: M.Function, n: nat)
    requires fn.frame.Some? && n < |fn.localKinds| == |fn.frame.value.offsets|
    ensures TakeFrame(fn) + SpillParams(fn, n + 1)
         == TakeFrame(fn) + SpillParams(fn, n)
           + StoreLocal(fn, fn.localKinds[n], fn.frame.value.offsets[n], LocalIndex(fn, n))
  {
    hide TakeFrame, StoreLocal;
  }

  /** What is written after `n` parameters is no longer than the whole prologue. */
  lemma {:induction false} PrologueParts(fn: M.Function, n: nat)
    requires SizesFit(fn) && fn.frame.Some? && n <= ParamCount(fn)
    ensures |EncodeAll(TakeFrame(fn) + SpillParams(fn, n))| <= |EncodeAll(Prologue(fn))|
    ensures |EncodeAll(TakeFrame(fn))| <= |EncodeAll(Prologue(fn))|
    decreases ParamCount(fn) - n
  {
    hide EncodeAll, TakeFrame, StoreLocal, SpillParams;
    if n < ParamCount(fn) {
      SpillNext(fn, n);
      EncodeConcat(TakeFrame(fn) + SpillParams(fn, n),
        StoreLocal(fn, fn.localKinds[n], fn.frame.value.offsets[n], LocalIndex(fn, n)));
      PrologueParts(fn, n + 1);
    }
    EncodeConcat(TakeFrame(fn), SpillParams(fn, ParamCount(fn)));
  }

  /** The bytes after the declarations: the prologue and the code. */
  ghost function CodeBytes(fn: M.Function): seq<Byte> {
    if EmitBody(fn).Err? then [] else EncodeAll(EmitBody(fn).code)
  }

  /** Prologue and code, in that order. */
  method EmitEntryAndRange(fn: M.Function, body: Buffer, state: EmitState) returns (status: Status)
    requires body.Valid() && state.Valid() && state.For(fn) && state.Stack() == []
    modifies body, body.data, state, state.kinds
    ensures body.Valid() && (body.data == old(body.data) || fresh(body.data))
    ensures match status
      case Done => EmitBody(fn).Ok? && body.Contents() == old(body.Contents()) + CodeBytes(fn)
      case Refused(_) => EmitBody(fn).Err?
      case TooLarge => EmitBody(fn).Ok? ==> |old(body.Contents())| + |CodeBytes(fn)| > body.Limit()
  {
    hide EncodeAll, EmitRange, Prologue, EmitBody, CodeBytes;
    ghost var before := body.Contents();
    ghost var entry := if fn.frame.None? then [] else EncodeAll(Prologue(fn));
    CodeSplit(fn);
    if fn.frame.Some? {
      var ok := EmitPrologue(fn, body, state);
      if !ok {
        return TooLarge;
      }
    }
    assert body.Contents() == before + entry;
    status := EmitFunctionRange(fn, NO_TARGETS, 0, |fn.insts|, body, state);
    if status.Done? {
      Reassociate(before, entry, EncodeAll(EmitRange(fn, NO_TARGETS, 0, |fn.insts|, []).code));
    }
  }

  lemma Reassociate(a: seq<Byte>, b: seq<Byte>, c: seq<Byte>)
    ensures a + b + c == a + (b + c)
  {
  }

  method EmitFunctionBody(fn: M.Function, paramCount: nat, body: Buffer) returns (status: Status)
    requires body.Valid() && CountsParams(fn, paramCount) && (|fn.localKinds| <= MAX_LOCALS ==> SizesFit(fn))
    modifies body, body.data
    ensures body.Valid() && (body.data == old(body.data) || fresh(body.data))
    ensures var bytes := FunctionBytes(fn, paramCount);
      match status
      case Done => bytes.Some? && body.Contents() == old(body.Contents()) + bytes.value
      case Refused(_) => bytes.None?
      case TooLarge => bytes.Some? ==> |old(body.Contents())| + |bytes.value| > body.Limit()
    ensures var bytes := FunctionBytes(fn, paramCount);
      bytes.Some? && |old(body.Contents())| + |bytes.value| > body.Ceiling() ==> status.TooLarge?
  {
    hide EncodeAll, EncodeDecls, EmitRange, DeclaredTypes, Prologue, EmitBody, CodeBytes, FunctionBytes;
    BytesSplit(fn, paramCount);
    if |fn.localKinds| > MAX_LOCALS {
      return Refused(TooManyLocals);
    }
    ghost var before := body.Contents();
    var state := new EmitState(fn);
    var types := DeclareLocals(fn, paramCount);
    if types.None? {
      return Refused(TooManyLocals);
    }
    ghost var decls := EncodeDecls(types.value);
    var ok := AppendLocalDecls(body, types.value);
    if !ok {
      return TooLarge;
    }
    status := EmitEntryAndRange(fn, body, state);
    if !status.Done? {
      return;
    }
    ok := body.AppendByte(END);
    if !ok {
      return TooLarge;
    }
    assert before + decls + CodeBytes(fn) + [END] == before + (decls + CodeBytes(fn) + [END]);
  }

  /** The pieces a body is written in. */
  lemma BytesSplit(fn: M.Function, paramCount: nat)
    requires paramCount <= |fn.localKinds|
    ensures var bytes := FunctionBytes(fn, paramCount); var types := DeclaredTypes(fn, paramCount);
      && (bytes.Some? <==> |fn.localKinds| <= MAX_LOCALS && |types| <= MAX_DECLARED && EmitBody(fn).Ok?)
      && (bytes.Some? ==> bytes.value == EncodeDecls(types) + CodeBytes(fn) + [END])
  {
    hide EncodeAll, EncodeDecls, EmitRange, DeclaredTypes, Prologue, EmitBody;
  }

  /** The pieces the code is written in. */
  lemma CodeSplit(fn: M.Function)
    ensures var range := EmitRange(fn, NO_TARGETS, 0, |fn.insts|,
      []); var entry := if fn.frame.None? then [] else EncodeAll(Prologue(fn));
      range.Ok? == EmitBody(fn).Ok? && (range.Ok? ==> CodeBytes(fn) == entry + EncodeAll(range.code))
  {
    hide EncodeAll, EmitRange, Prologue;
    var range := EmitRange(fn, NO_TARGETS, 0, |fn.insts|, []);
    if range.Ok? {
      EncodeConcat(Prologue(fn), range.code);
      assert [] + EncodeAll(range.code) == EncodeAll(range.code);
    }
  }

  // ---- what the bytes mean ------------------------------------------------------------------

  /** Parameters and declared locals together are exactly the locals the code refers to. */
  lemma DeclaredCount(fn: M.Function, paramCount: nat)
    requires CountsParams(fn, paramCount)
    ensures |W.ExpandTypes(fn.localKinds[..paramCount])| + |DeclaredTypes(fn, paramCount)| == LocalCount(fn)
  {
    assert fn.localKinds[..|fn.localKinds|] == fn.localKinds[..paramCount] + fn.localKinds[paramCount..];
    ExpandTypesConcat(fn.localKinds[..paramCount], fn.localKinds[paramCount..]);
  }

  /** The bytes of a function body parse, in one way, into its declarations and its code. */
  lemma BytesParse(fn: M.Function, paramCount: nat)
    requires paramCount <= |fn.localKinds| && FunctionBytes(fn, paramCount).Some? && SizesFit(fn)
    ensures var bytes := FunctionBytes(fn, paramCount).value;
      var decls := ParseDecls(bytes);
      && decls.Parsed? && decls.value == DeclaredTypes(fn, paramCount)
      && ParseCode(decls.rest) == Parsed(Body(EmitBody(fn).code, END), [])
  {
    hide EncodeAll, EncodeDecls, EmitBody, DeclaredTypes, ParseDecls, ParseCode;
    var types, code := DeclaredTypes(fn, paramCount), EmitBody(fn).code;
    BodyFits(fn);
    CodeRoundTrip(code, END, []);
    assert EncodeAll(code) + [END] + [] == EncodeAll(code) + [END];
    DeclsRoundTrip(types, EncodeAll(code) + [END]);
    assert EncodeDecls(types) + EncodeAll(code) + [END] == EncodeDecls(types) + (EncodeAll(code) + [END]);
  }

  /** From the bytes alone: running the code they describe ends like the flat function, for all inputs,
      callees and budgets; the locals it starts with are the parameters and those the bytes declare. */
  lemma BytesPreserveMeaning(fn: M.Function, k: seq<Kinds>, paramCount: nat, oracle: M.Oracle, locals: seq<M.Value>,
      start: W.State)
    requires WellFormed(fn, k) && CountsParams(fn, paramCount) && FunctionBytes(fn, paramCount).Some? && SizesFit(fn)
    requires Starts(fn, locals, start)
    ensures var decls := ParseDecls(FunctionBytes(fn, paramCount).value);
      && decls.Parsed? && |start.locals| == |W.ExpandTypes(fn.localKinds[..paramCount])| + |decls.value|
      && var body := ParseCode(decls.rest);
         && body.Parsed? && body.rest == []
         && EndAlike(fn, FlatRun(fn, oracle, locals, start.trace, start.fuel),
                     W.Exec(W.HostOf(fn, oracle), body.value.code, [], start))
  {
    hide EncodeAll, EncodeDecls, EmitBody, DeclaredTypes, ParseDecls, ParseCode, M.Run, W.Exec, W.Expand,
      W.ExpandTypes, EndAlike, FunctionBytes,
      Starts;
    BytesParse(fn, paramCount);
    DeclaredCount(fn, paramCount);
    BytesEmitted(fn, paramCount);
    StartCount(fn, locals, start);
    StructuringPreservesMeaning(fn, k, oracle, locals, start);
  }

  lemma StartCount(fn: M.Function, locals: seq<M.Value>, start: W.State)
    requires Starts(fn, locals, start)
    ensures |start.locals| == LocalCount(fn)
  {
  }

  lemma BytesEmitted(fn: M.Function, paramCount: nat)
    requires paramCount <= |fn.localKinds| && FunctionBytes(fn, paramCount).Some?
    ensures EmitBody(fn).Ok?
  {
  }
}
