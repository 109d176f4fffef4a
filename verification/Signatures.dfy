/**
 * Function signatures: how parameter and result kinds become WebAssembly types, and which type
 * entry each function names once equal shapes are shared and allocators are redirected.
 */
module Signatures {
  import opened Words

  datatype Element = EU8 | EI8 | EU16 | EI16 | EU32 | EI32 | EStr | EAgg

  /** Value kinds of the whole backend. */
  datatype TypeKind =
    | Void
    | I32
    | I64
    | StrRef
    | StrPtr
    | Pointer(to: Element)
    | OpaquePtr
    | ArrayView(of: Element)
    | Slice(of: Element)
    | AggRef
    | FuncRef
    | FuncRefPtr

  const TYPE_I32: Byte := 0x7f
  const TYPE_I64: Byte := 0x7e
  const MAX_PARAMS := 32
  const MAX_WASM_PARAMS := 64

  /** The WebAssembly types of a value of the kind: none, one or two. */
  function WasmTypes(k: TypeKind): (r: seq<Byte>)
    ensures |r| <= 2
  {
    match k
    case Void => []
    case StrRef => [TYPE_I32, TYPE_I32]
    case Slice(_) => [TYPE_I32, TYPE_I32]
    case I64 => [TYPE_I64]
    case _ => [TYPE_I32]
  }

  /** Results of these kinds are written through an address that is passed as a last parameter. */
  predicate UsesSRet(k: TypeKind) {
    k.AggRef? || k.ArrayView?
  }

  /** What a signature is built from; `None` is a type that no kind is known for. */
  datatype Declared = Declared(params: seq<TypeKind>, result: Option<TypeKind>)

  datatype FuncType = FuncType(params: seq<Byte>, results: seq<Byte>)

  datatype Sig = Sig(
    typeIndex: nat,
    logicalParams: seq<TypeKind>,
    wasmParams: seq<Byte>,
    resultKind: TypeKind,
    wasmResults: seq<Byte>,
    usesSRet: bool)

  function TypeOf(s: Sig): FuncType {
    FuncType(s.wasmParams, s.wasmResults)
  }

  /** The types of the parameters, in order. */
  function ParamTypes(params: seq<TypeKind>): seq<Byte> {
    if params == [] then [] else ParamTypes(params[..|params| - 1]) + WasmTypes(params[|params| - 1])
  }

  function DeclaredType(d: Declared): FuncType
    requires d.result.Some?
  {
    var result := d.result.value;
    FuncType(
      ParamTypes(d.params) + if UsesSRet(result) then [TYPE_I32] else [],
      if UsesSRet(result) then [] else WasmTypes(result))
  }

  /** How many WebAssembly parameters come before parameter `j`. */
  function SlotsBefore(params: seq<TypeKind>, j: nat): nat
    requires j <= |params|
  {
    if j == 0 then 0 else SlotsBefore(params, j - 1) + |WasmTypes(params[j - 1])|
  }

  /** Each parameter's types stand behind those of the parameters before it. */
  lemma {:induction false} ParamTypesAt(params: seq<TypeKind>, j: nat)
    requires j < |params|
    ensures |ParamTypes(params)| == SlotsBefore(params, |params|)
    ensures var a, b := SlotsBefore(params, j), SlotsBefore(params, j + 1);
      a <= b <= |ParamTypes(params)| && ParamTypes(params)[a..b] == WasmTypes(params[j])
    decreases |params|
  {
    hide WasmTypes;
    var n := |params| - 1;
    var front := params[..n];
    SlotsOfFront(params, n, n);
    if j < n {
      ParamTypesAt(front, j);
      SlotsOfFront(params, n, j);
      SlotsOfFront(params, n, j + 1);
    } else if n > 0 {
      ParamTypesAt(front, 0);
    }
  }

  lemma {:induction false} SlotsOfFront(params: seq<TypeKind>, n: nat, j: nat)
    requires j <= n <= |params|
    ensures SlotsBefore(params[..n], j) == SlotsBefore(params, j)
    decreases j
  {
    if j > 0 {
      SlotsOfFront(params, n, j - 1);
    }
  }

  /** The type of a function: its parameters in order, and behind them the address for a result that is
      written to memory, which then is not a result. */
  lemma DeclaredTypeAt(d: Declared, j: nat)
    requires d.result.Some?
    ensures var t, n, r := DeclaredType(d), SlotsBefore(d.params, |d.params|), d.result.value;
      && (j < |d.params| ==>
            && SlotsBefore(d.params, j) <= SlotsBefore(d.params, j + 1) <= |t.params|
            && t.params[SlotsBefore(d.params, j)..SlotsBefore(d.params, j + 1)] == WasmTypes(d.params[j]))
      && (r.AggRef? || r.ArrayView? ==> |t.params| == n + 1 && t.params[n] == TYPE_I32 && t.results == [])
      && (!r.AggRef? && !r.ArrayView? ==> |t.params| == n && t.results == WasmTypes(r))
  {
    hide WasmTypes, SlotsBefore, ParamTypes;
    NoParams();
    if d.params != [] {
      ParamTypesAt(d.params, 0);
    }
    if j < |d.params| {
      ParamTypesAt(d.params, j);
      var a, b := SlotsBefore(d.params, j), SlotsBefore(d.params, j + 1);
      assert DeclaredType(d).params[a..b] == ParamTypes(d.params)[a..b];
    }
  }

  lemma NoParams()
    ensures ParamTypes([]) == [] && SlotsBefore([], 0) == 0
  {
  }

  /** Signatures that fit: known kinds, and no more parameters than there is room for. */
  predicate Supported(d: Declared) {
    && d.result.Some?
    && |d.params| <= MAX_PARAMS
    && (forall j :: 0 <= j < |d.params| ==> !d.params[j].Void?)
    && |DeclaredType(d).params| <= MAX_WASM_PARAMS
  }

  /** The signature of an unreachable function: nothing in, nothing out. */
  function EmptySig(i: nat): Sig {
    Sig(i, [], [], Void, [], false)
  }

  predicate SameShape(a: Sig, b: Sig) {
    && a.logicalParams == b.logicalParams && a.wasmParams == b.wasmParams
    && a.resultKind == b.resultKind && a.wasmResults == b.wasmResults && a.usesSRet == b.usesSRet
  }

  /** The signature says what was declared, or nothing for an unreachable function. */
  predicate SigFits(d: Declared, reachable: bool, s: Sig) {
    && (!reachable ==> TypeOf(s) == FuncType([], []))
    && (reachable ==>
          && d.result.Some? && TypeOf(s) == DeclaredType(d) && s.logicalParams == d.params
          && s.resultKind == d.result.value && s.usesSRet == UsesSRet(s.resultKind))
  }

  /** Every signature names an entry, not after its own, that has its types. */
  predicate TypesNamed(sigs: seq<Sig>) {
    forall i :: 0 <= i < |sigs| ==> sigs[i].typeIndex <= i && TypeOf(sigs[sigs[i].typeIndex]) == TypeOf(sigs[i])
  }

  lemma {:induction false} ParamTypesGrow(params: seq<TypeKind>, j: nat)
    requires j <= |params|
    ensures |ParamTypes(params[..j])| <= |ParamTypes(params)|
    decreases |params|
  {
    if j < |params| {
      var n := |params| - 1;
      assert params[..n][..j] == params[..j];
      ParamTypesGrow(params[..n], j);
    } else {
      assert params[..j] == params;
    }
  }

  /** The parameters' types one after the other; None when a kind or the room for them is missing. */
  method BuildParams(params: seq<TypeKind>) returns (r: Option<seq<Byte>>)
    ensures r.Some? <==> |params| <= MAX_PARAMS && (forall j :: 0 <= j < |params| ==> !params[j].Void?)
                         && |ParamTypes(params)| <= MAX_WASM_PARAMS
    ensures r.Some? ==> r.value == ParamTypes(params)
  {
    if |params| > MAX_PARAMS {
      return None;
    }
    var types: seq<Byte> := [];
    var j := 0;
    while j < |params|
      invariant 0 <= j <= |params| && types == ParamTypes(params[..j]) && |types| <= MAX_WASM_PARAMS
      invariant forall i :: 0 <= i < j ==> !params[i].Void?
    {
      assert params[..j + 1][..j] == params[..j];
      if params[j].Void? {
        return None;
      }
      if |types| + |WasmTypes(params[j])| > MAX_WASM_PARAMS {
        ParamTypesGrow(params, j + 1);
        return None;
      }
      types := types + WasmTypes(params[j]);
      j := j + 1;
    }
    assert params[..j] == params;
    r := Some(types);
  }

  method BuildSignature(d: Declared, i: nat) returns (r: Option<Sig>)
    ensures r.Some? <==> Supported(d)
    ensures r.Some? ==> SigFits(d, true, r.value) && r.value.typeIndex == i
  {
    var params := BuildParams(d.params);
    if params.None? {
      return None;
    }
    if d.result.None? {
      return None;
    }
    var result := d.result.value;
    var types := params.value;
    if UsesSRet(result) {
      if |types| + 1 > MAX_WASM_PARAMS {
        return None;
      }
      r := Some(Sig(i, d.params, types + [TYPE_I32], result, [], true));
    } else {
      assert types + [] == types;
      r := Some(Sig(i, d.params, types, result, WasmTypes(result), false));
    }
  }

  /** The entry of the first earlier signature of the same shape, or the signature's own. */
  method ShareType(sigs: seq<Sig>, s: Sig) returns (r: Sig)
    requires TypesNamed(sigs) && s.typeIndex == |sigs|
    ensures r == s.(typeIndex := r.typeIndex) && TypesNamed(sigs + [r])
  {
    r := s;
    var j := 0;
    while j < |sigs|
      invariant 0 <= j <= |sigs| && r == s
    {
      if SameShape(s, sigs[j]) {
        r := s.(typeIndex := sigs[j].typeIndex);
        break;
      }
      j := j + 1;
    }
    forall i | 0 <= i < |sigs + [r]|
      ensures var all := sigs + [r]; all[i].typeIndex <= i && TypeOf(all[all[i].typeIndex]) == TypeOf(all[i])
    {
      if i < |sigs| {
        assert sigs[i].typeIndex <= i;
      }
    }
  }

  lemma TypesNamedNone()
    ensures TypesNamed([])
  {
  }

  lemma NothingNamed(d: Declared, sigs: seq<Sig>)
    requires TypesNamed(sigs)
    ensures TypesNamed(sigs + [EmptySig(|sigs|)]) && SigFits(d, false, EmptySig(|sigs|))
  {
    var all := sigs + [EmptySig(|sigs|)];
    forall i | 0 <= i < |all|
      ensures all[i].typeIndex <= i && TypeOf(all[all[i].typeIndex]) == TypeOf(all[i])
    {
      if i < |sigs| {
        assert sigs[i].typeIndex <= i;
      }
    }
  }

  lemma SharedFits(d: Declared, s: Sig, x: nat)
    requires SigFits(d, true, s)
    ensures SigFits(d, true, s.(typeIndex := x))
  {
  }

  predicate AllSupported(decls: seq<Declared>, reachable: seq<bool>)
    requires |reachable| == |decls|
  {
    forall i :: 0 <= i < |decls| && reachable[i] ==> Supported(decls[i])
  }

  /** Signatures of all functions; None exactly when some reachable function is not supported. */
  method BuildFunctionSignatures(decls: seq<Declared>, reachable: seq<bool>) returns (r: Option<seq<Sig>>)
    requires |reachable| == |decls|
    ensures r.Some? <==> AllSupported(decls, reachable)
    ensures r.Some? ==> |r.value| == |decls| && TypesNamed(r.value)
    ensures r.Some? ==> forall i :: 0 <= i < |decls| ==> SigFits(decls[i], reachable[i], r.value[i])
  {
    hide Supported, SigFits, TypesNamed;
    var sigs: seq<Sig> := [];
    TypesNamedNone();
    var i := 0;
    while i < |decls|
      invariant 0 <= i <= |decls| && |sigs| == i && TypesNamed(sigs)
      invariant forall j :: 0 <= j < i ==> SigFits(decls[j], reachable[j], sigs[j])
      invariant forall j :: 0 <= j < i && reachable[j] ==> Supported(decls[j])
    {
      if !reachable[i] {
        NothingNamed(decls[i], sigs);
        sigs := sigs + [EmptySig(i)];
      } else {
        var built := BuildSignature(decls[i], i);
        if built.None? {
          return None;
        }
        var s := ShareType(sigs, built.value);
        SharedFits(decls[i], built.value, s.typeIndex);
        sigs := sigs + [s];
      }
      i := i + 1;
    }
    r := Some(sigs);
  }

  // ---- allocators called through the table ---------------------------------------------------

  /** Seven 32-bit parameters and one 32-bit result. */
  const ALLOCATOR_TYPE := FuncType(
    [TYPE_I32, TYPE_I32, TYPE_I32, TYPE_I32, TYPE_I32, TYPE_I32, TYPE_I32], [TYPE_I32])

  predicate MatchesAllocator(s: Sig) {
    && |s.wasmParams| == 7 && |s.wasmResults| == 1 && s.wasmResults[0] == TYPE_I32
    && s.wasmParams[0] == TYPE_I32 && s.wasmParams[1] == TYPE_I32 && s.wasmParams[2] == TYPE_I32
    && s.wasmParams[3] == TYPE_I32 && s.wasmParams[4] == TYPE_I32 && s.wasmParams[5] == TYPE_I32
    && s.wasmParams[6] == TYPE_I32
  }

  lemma AllocatorShape(s: Sig)
    ensures MatchesAllocator(s) <==> TypeOf(s) == ALLOCATOR_TYPE
  {
    if MatchesAllocator(s) {
      assert s.wasmParams == ALLOCATOR_TYPE.params && s.wasmResults == ALLOCATOR_TYPE.results;
    }
  }

  /** Points every signature of the allocator's types at one entry of its own. */
  method RedirectAllocators(sigs: seq<Sig>, typeIndex: nat) returns (r: seq<Sig>)
    ensures |r| == |sigs|
    ensures forall i :: 0 <= i < |sigs| ==>
      r[i] == if TypeOf(sigs[i]) == ALLOCATOR_TYPE then sigs[i].(typeIndex := typeIndex) else sigs[i]
  {
    r := sigs;
    var i := 0;
    while i < |sigs|
      invariant 0 <= i <= |sigs| == |r|
      invariant forall j :: 0 <= j < i ==>
        r[j] == if TypeOf(sigs[j]) == ALLOCATOR_TYPE then sigs[j].(typeIndex := typeIndex) else sigs[j]
      invariant forall j :: i <= j < |sigs| ==> r[j] == sigs[j]
    {
      AllocatorShape(r[i]);
      if MatchesAllocator(r[i]) {
        r := r[i := r[i].(typeIndex := typeIndex)];
      }
      i := i + 1;
    }
  }
}
