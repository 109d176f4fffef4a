/**
 * From bytes to safety: the locals a function body declares, with its parameters, are a context in
 * which its code validates; so a body that was written never gets stuck, whatever it is called with.
 */
module ValidBodies {
  import opened Words
  import opened Memory
  import M = Mir
  import opened StackMap
  import opened Wasm
  import opened Emitter
  import opened Slots
  import opened FrameEntry
  import opened Binary
  import opened Framing
  import opened EmitterMethods
  import opened FunctionBodies
  import opened Validation
  import opened ValidLeaves
  import opened ValidEmission
  import opened Soundness

  /** The value types that declaration bytes stand for. */
  function DeclaredValTypes(bs: seq<Byte>): (ts: Types)
    ensures |ts| == |bs|
    ensures forall i :: 0 <= i < |bs| ==> ts[i] == if bs[i] == 0x7e then TI64 else TI32
  {
    seq(|bs|, i requires 0 <= i < |bs| => if bs[i] == 0x7e then TI64 else TI32)
  }

  /** What a function's code is validated against: its parameters, then the locals it declares. */
  function BodyContext(fn: M.Function, paramCount: nat, decls: seq<Byte>, globals: nat): Context
    requires paramCount <= |fn.localKinds|
  {
    Context(fn.sigs, ExpandTypes(fn.localKinds[..paramCount]) + DeclaredValTypes(decls), globals, KindTypes(fn.result),
      [])
  }

  lemma {:induction false} TypesBack(ts: Types)
    ensures DeclaredValTypes(TypeBytes(ts)) == ts
  {
    if ts != [] {
      TypesBack(ts[1..]);
      var b := TypeBytes(ts);
      assert b[1..] == TypeBytes(ts[1..]);
      assert forall i :: 1 <= i < |ts| ==> DeclaredValTypes(b)[i] == DeclaredValTypes(b[1..])[i - 1];
      assert ts == [ts[0]] + ts[1..];
    }
  }

  lemma {:induction false} RepeatIs(n: nat, t: Byte)
    ensures forall i :: 0 <= i < n ==> Repeat(n, t)[i] == t
  {
    if n > 0 {
      RepeatIs(n - 1, t);
    }
  }

  /** The declared locals begin with the locals proper, or the hidden ones. */
  function OwnBytes(fn: M.Function, paramCount: nat): seq<Byte>
    requires paramCount <= |fn.localKinds|
  {
    if fn.frame.None? then TypeBytes(ExpandTypes(fn.localKinds[paramCount..])) else Repeat(8, 0x7f) + [0x7e]
  }

  lemma OwnTypes(fn: M.Function, paramCount: nat)
    requires CountsParams(fn, paramCount)
    ensures var ts := ExpandTypes(fn.localKinds[..paramCount]) + DeclaredValTypes(OwnBytes(fn, paramCount));
      && |ts| == ScratchI32(fn) && ExpandTypes(fn.localKinds[..ParamCount(fn)]) <= ts
      && (fn.frame.Some? ==>
        (forall x :: FrameBase(fn) <= x < FrameBase(fn) + 8 ==> ts[x] == TI32) && ts[ScratchWide(fn)] == TI64)
  {
    hide ExpandTypes, TypeBytes, Repeat;
    if fn.frame.None? {
      TypesBack(ExpandTypes(fn.localKinds[paramCount..]));
      assert fn.localKinds[..|fn.localKinds|] == fn.localKinds[..paramCount] + fn.localKinds[paramCount..];
      ExpandTypesConcat(fn.localKinds[..paramCount], fn.localKinds[paramCount..]);
    } else {
      RepeatIs(8, 0x7f);
    }
  }

  /** Parameters and declared locals are what the code expects. */
  lemma DeclaredSuits(fn: M.Function, paramCount: nat, globals: nat)
    requires CountsParams(fn, paramCount) && SizesFit(fn) && (fn.frame.Some? ==> fn.frame.value.pointer < globals)
    ensures Suits(fn, BodyContext(fn, paramCount, DeclaredTypes(fn, paramCount), globals))
  {
    hide ExpandTypes, TypeBytes, Repeat, OwnBytes, FrameBase, ScratchI32, DeclaredTypes, NeedsCallScratch;
    var c := BodyContext(fn, paramCount, DeclaredTypes(fn, paramCount), globals);
    var own := OwnBytes(fn, paramCount);
    var ts := ExpandTypes(fn.localKinds[..paramCount]) + DeclaredValTypes(own);
    OwnTypes(fn, paramCount);
    DeclaredSplit(fn, paramCount);
    RepeatIs(CALL_SCRATCH_I32, 0x7f);
    RepeatIs(CALL_SCRATCH_I64, 0x7e);
    FrameBefore(fn);
    if NeedsCallScratch(fn) {
      var more := Repeat(CALL_SCRATCH_I32, 0x7f) + Repeat(CALL_SCRATCH_I64, 0x7e);
      assert DeclaredValTypes(own + more) == DeclaredValTypes(own) + DeclaredValTypes(more);
      assert c.locals == ts + DeclaredValTypes(more);
    } else {
      assert own + [] == own;
      assert c.locals == ts;
    }
  }

  lemma DeclaredSplit(fn: M.Function, paramCount: nat)
    requires paramCount <= |fn.localKinds|
    ensures DeclaredTypes(fn, paramCount)
         == OwnBytes(fn, paramCount) + if NeedsCallScratch(fn) then
           Repeat(CALL_SCRATCH_I32, 0x7f) + Repeat(CALL_SCRATCH_I64, 0x7e) else []
  {
  }

  lemma FrameBefore(fn: M.Function)
    ensures fn.frame.Some? ==> ScratchI32(fn) == FrameBase(fn) + HIDDEN_LOCALS
  {
  }

  /** What is written validates: the code that the bytes parse into, against the locals they declare. */
  lemma WrittenBodyValidates(fn: M.Function, k: seq<Kinds>, paramCount: nat, globals: nat)
    requires WellFormed(fn, k) && EndTyped(fn, k) && CountsParams(fn, paramCount) && SizesFit(fn)
      && FunctionBytes(fn, paramCount).Some?
    requires fn.frame.Some? ==> fn.frame.value.pointer < globals
    ensures var decls := ParseDecls(FunctionBytes(fn, paramCount).value);
      && decls.Parsed?
      && var body := ParseCode(decls.rest);
         && body.Parsed? && body.rest == []
         && var c := BodyContext(fn, paramCount, decls.value, globals);
            && BodyOk(c, body.value.code, c.result) && |c.locals| == LocalCount(fn)
  {
    hide ParseDecls, ParseCode, FunctionBytes, DeclaredTypes, EmitBody, BodyOk, Suits, ExpandTypes, EndTyped,
      LocalCount;
    BytesParse(fn, paramCount);
    BytesEmitted(fn, paramCount);
    DeclaredSuits(fn, paramCount, globals);
    DeclaredCount(fn, paramCount);
    EmittedFunctionValidates(fn, k, BodyContext(fn, paramCount, DeclaredTypes(fn, paramCount), globals));
  }

  /** So a written body never gets stuck: on arguments of the declared types, whatever its callees do,
      it returns values of its result types, traps, or runs on. */
  lemma WrittenBodyIsSafe(fn: M.Function, k: seq<Kinds>, paramCount: nat, host: Host, start: State)
    requires WellFormed(fn, k) && EndTyped(fn, k) && CountsParams(fn, paramCount) && SizesFit(fn)
      && FunctionBytes(fn, paramCount).Some?
    requires host.sigs == fn.sigs && LeavesShape(host)
      && (fn.frame.Some? ==> fn.frame.value.pointer < |start.store.globals|)
    requires var decls := ParseDecls(FunctionBytes(fn, paramCount).value);
      decls.Parsed? ==> TypesOf(start.locals) == BodyContext(fn, paramCount, decls.value, |start.store.globals|).locals
    ensures var decls := ParseDecls(FunctionBytes(fn, paramCount).value);
      && decls.Parsed?
      && var body := ParseCode(decls.rest);
         && body.Parsed?
         && var o := Exec(host, body.value.code, [], start);
            && !o.Stuck?
            && (o.Normal? ==> TypesOf(o.stack) == KindTypes(fn.result))
            && (o.Returning? ==> HasTop(o.stack, KindTypes(fn.result)))
  {
    hide ParseDecls, ParseCode, FunctionBytes, BodyOk, ExpandTypes, EndTyped, Exec, WellFormed, HasTop;
    WrittenBodyValidates(fn, k, paramCount, |start.store.globals|);
    var decls := ParseDecls(FunctionBytes(fn, paramCount).value);
    ValidBodyIsSafe(BodyContext(fn, paramCount, decls.value, |start.store.globals|), host,
      ParseCode(decls.rest).value.code, start);
  }
}
