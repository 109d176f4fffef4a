/**
 * The types a function is declared with and the types its body is written for are the same: what a
 * function's index names in the module has the parameters that the written body is validated against.
 */
module TypedBodies {
  import opened Words
  import M = Mir
  import W = Wasm
  import opened StackMap
  import opened Binary
  import opened Framing
  import opened Emitter
  import opened EmitterMethods
  import opened FunctionBodies
  import opened Validation
  import opened ValidEmission
  import opened ValidBodies
  import S = Signatures
  import I = IndexSpaces
  import opened ModuleSections
  import N = NamedIndices

  /** The backend's kind for a kind of the body model. */
  function KindFor(k: M.Kind): S.TypeKind {
    match k
    case KI32 => S.I32
    case KI64 => S.I64
    case KStr => S.StrRef
  }

  function KindsFor(ks: seq<M.Kind>): (r: seq<S.TypeKind>)
    ensures |r| == |ks|
  {
    seq(|ks|, i requires 0 <= i < |ks| => KindFor(ks[i]))
  }

  /** The function is declared with the parameters and the result that its body is lowered with. */
  predicate DeclaredAs(d: S.Declared, params: seq<M.Kind>, result: Option<M.Kind>) {
    && d.params == KindsFor(params)
    && d.result == Some(if result.None? then S.Void else KindFor(result.value))
  }

  lemma SlotBytes(k: M.Kind)
    ensures S.WasmTypes(KindFor(k)) == TypeBytes(W.SlotTypes(k)) && !S.UsesSRet(KindFor(k))
  {
    assert [W.TI32, W.TI32][1..] == [W.TI32] && [W.TI32][1..] == [] && [W.TI64][1..] == [];
  }

  lemma {:induction false} TypeBytesConcat(a: seq<W.ValType>, b: seq<W.ValType>)
    ensures TypeBytes(a + b) == TypeBytes(a) + TypeBytes(b)
    decreases |a|
  {
    if a == [] {
      assert a + b == b;
    } else {
      assert (a + b)[1..] == a[1..] + b;
      TypeBytesConcat(a[1..], b);
    }
  }

  lemma {:induction false} ParamBytes(params: seq<M.Kind>)
    ensures S.ParamTypes(KindsFor(params)) == TypeBytes(W.ExpandTypes(params))
    decreases |params|
  {
    hide S.WasmTypes, W.SlotTypes;
    if params != [] {
      var n := |params| - 1;
      assert KindsFor(params)[..n] == KindsFor(params[..n]);
      ParamBytes(params[..n]);
      SlotBytes(params[n]);
      TypeBytesConcat(W.ExpandTypes(params[..n]), W.SlotTypes(params[n]));
    }
  }

  /** The declared type lists the types that the parameters and the result take up. */
  lemma DeclaredTypeBytes(d: S.Declared, params: seq<M.Kind>, result: Option<M.Kind>)
    requires DeclaredAs(d, params, result)
    ensures S.DeclaredType(d) == S.FuncType(TypeBytes(W.ExpandTypes(params)), TypeBytes(KindTypes(result)))
  {
    hide S.ParamTypes, W.ExpandTypes;
    ParamBytes(params);
    assert S.ParamTypes(d.params) + [] == S.ParamTypes(d.params);
    if result.Some? {
      SlotBytes(result.value);
    }
  }

  /** What a function's index names in the written module has a type, and the function's written body
      validates with locals that begin with the parameters of that type, and for its results. */
  lemma BodyHasDeclaredType(p: I.Program, built: seq<S.Sig>, sigs: seq<S.Sig>, f: nat, fn: M.Function, k: seq<Kinds>,
      params: nat, globals: nat)
    requires N.SignaturesOf(p, built, sigs) && Fitting(p, sigs) && I.Reached(p, f)
    requires params <= |fn.localKinds| && DeclaredAs(p.decls[f], fn.localKinds[..params], fn.result)
    requires WellFormed(fn, k) && EndTyped(fn, k) && CountsParams(fn, params) && SizesFit(fn)
      && FunctionBytes(fn, params).Some?
    requires fn.frame.Some? ==> fn.frame.value.pointer < globals
    ensures OwnIndex(p, f).Some? && p.decls[f].result.Some?
    ensures var m := N.Written(p, sigs);
      var t := N.TypeIndexOf(N.FunctionAt(m, OwnIndex(p, f).value));
      var decls := ParseDecls(FunctionBytes(fn, params).value);
      && t < |m.types| && decls.Parsed? && ParseCode(decls.rest).Parsed?
      && var c := BodyContext(fn, params, decls.value, globals);
      && m.types[t].params == TypeBytes(W.ExpandTypes(fn.localKinds[..params]))
      && m.types[t].params <= TypeBytes(c.locals)
      && m.types[t].results == TypeBytes(c.result)
      && BodyOk(c, ParseCode(decls.rest).value.code, c.result)
  {
    hide N.Written, N.FunctionAt, OwnIndex, S.DeclaredType, N.SignaturesOf, I.InRange, ParseDecls, ParseCode,
      FunctionBytes, BodyOk, W.ExpandTypes, WellFormed, EndTyped, SizesFit, TypeBytes, KindsFor, CountsParams;
    N.FunctionTyped(p, built, sigs, f);
    DeclaredTypeBytes(p.decls[f], fn.localKinds[..params], fn.result);
    WrittenBodyValidates(fn, k, params, globals);
    var decls := ParseDecls(FunctionBytes(fn, params).value);
    TypeBytesConcat(W.ExpandTypes(fn.localKinds[..params]), DeclaredValTypes(decls.value));
  }
}
