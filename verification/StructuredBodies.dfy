/**
 * From structured code to bytes: what is written for code that fits, and that it does what the code does.
 */
module StructuredBodies {
  import opened Words
  import M = Mir
  import W = Wasm
  import opened Binary
  import opened Framing
  import opened Emitter
  import opened EmitterMethods
  import opened FrameEntry
  import opened FunctionBodies
  import opened Compiler
  import opened Structured
  import opened Expressions
  import opened Statements
  import opened Typing
  import opened LoweredMaps
  import opened Placement
  import opened Completeness

  /** Lowered from typed code, within the limits of the emitter, of locals and of sizes. */
  ghost predicate Written(fn: M.Function, code: seq<Stmt>, paramCount: nat) {
    && IsLowered(fn, code) && InLimits(fn, StackMapOf(fn, code))
    && CountsParams(fn, paramCount) && SizesFit(fn) && |DeclaredTypes(fn, paramCount)| <= MAX_DECLARED
  }

  /** A body is written if and only if the code fits. */
  lemma WrittenExactly(fn: M.Function, code: seq<Stmt>, paramCount: nat)
    requires Written(fn, code, paramCount)
    ensures FunctionBytes(fn, paramCount).Some? <==> Fits(code, 0, NoLoop, None)
  {
    hide EmitBody, Fits, IsLowered, InLimits, EncodeDecls, EncodeAll, DeclaredTypes;
    EmittedExactly(fn, code);
  }

  /** What is written for code that fits parses, and runs as the flat code that it is lowered to, for all
      arguments, callees and budgets. */
  lemma WrittenCodeRuns(fn: M.Function, code: seq<Stmt>, paramCount: nat, oracle: M.Oracle, locals: seq<M.Value>,
      start: W.State)
    requires Written(fn, code, paramCount) && Fits(code, 0, NoLoop, None) && Starts(fn, locals, start)
    ensures FunctionBytes(fn, paramCount).Some?
    ensures var decls := ParseDecls(FunctionBytes(fn, paramCount).value);
      && decls.Parsed?
      && var body := ParseCode(decls.rest);
         && body.Parsed? && body.rest == []
         && EndAlike(fn, FlatRun(fn, oracle, locals, start.trace, start.fuel),
                     W.Exec(W.HostOf(fn, oracle), body.value.code, [], start))
  {
    hide EmitBody, Fits, Lower, Typed, Shaped, EndsInEval, InLimits, EncodeDecls, EncodeAll, DeclaredTypes,
      FunctionBytes, ParseDecls,
      ParseCode, EndAlike, M.Run, W.Exec, Starts;
    WrittenExactly(fn, code, paramCount);
    LoweredIsWellFormed(fn, code);
    BytesPreserveMeaning(fn, StackMapOf(fn, code), paramCount, oracle, locals, start);
  }
}
