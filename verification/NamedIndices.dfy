/** Every planned index names the entry it was planned for, in the module that is written. */
module NamedIndices {
  import opened Words
  import opened Signatures
  import opened IndexSpaces
  import opened ModuleSections

  // ---- index spaces: imports first, then the module's own entries ---------------------------------------------

  function OnlyFunctions(imports: seq<ImportDecl>): seq<ImportDecl> {
    if imports == [] then [] else (if imports[0].FnDecl? then [imports[0]] else []) + OnlyFunctions(imports[1..])
  }

  function OnlyGlobals(imports: seq<ImportDecl>): seq<ImportDecl> {
    if imports == [] then [] else (if imports[0].GlobalDecl? then [imports[0]] else []) + OnlyGlobals(imports[1..])
  }

  datatype Function = Outside(decl: ImportDecl) | Inside(body: Body, typeIndex: nat) | NoFunction

  datatype Global = Elsewhere(decl: ImportDecl) | Own(def: GlobalDef) | NoGlobal

  function FunctionAt(m: Module, x: nat): Function {
    var fns := OnlyFunctions(m.imports);
    if x < |fns| then Outside(fns[x])
    else if x - |fns| < |m.functions| && x - |fns| < |m.bodies| then Inside(m.bodies[x - |fns|], m.functions[x - |fns|])
    else NoFunction
  }

  function GlobalAt(m: Module, x: nat): Global {
    var globals := OnlyGlobals(m.imports);
    if x < |globals| then Elsewhere(globals[x])
    else if x - |globals| < |m.globals| then Own(m.globals[x - |globals|])
    else NoGlobal
  }

  lemma {:induction false} FunctionsConcat(a: seq<ImportDecl>, b: seq<ImportDecl>)
    ensures OnlyFunctions(a + b) == OnlyFunctions(a) + OnlyFunctions(b)
    decreases |a|
  {
    if a == [] {
      assert a + b == b;
    } else {
      assert (a + b)[0] == a[0] && (a + b)[1..] == a[1..] + b;
      FunctionsConcat(a[1..], b);
    }
  }

  lemma {:induction false} GlobalsConcat(a: seq<ImportDecl>, b: seq<ImportDecl>)
    ensures OnlyGlobals(a + b) == OnlyGlobals(a) + OnlyGlobals(b)
    decreases |a|
  {
    if a == [] {
      assert a + b == b;
    } else {
      assert (a + b)[0] == a[0] && (a + b)[1..] == a[1..] + b;
      GlobalsConcat(a[1..], b);
    }
  }

  lemma OnlyConcat(a: seq<ImportDecl>, b: seq<ImportDecl>)
    ensures OnlyFunctions(a + b) == OnlyFunctions(a) + OnlyFunctions(b)
    ensures OnlyGlobals(a + b) == OnlyGlobals(a) + OnlyGlobals(b)
  {
    FunctionsConcat(a, b);
    GlobalsConcat(a, b);
  }

  lemma {:induction false} OnlyThese(a: seq<ImportDecl>)
    ensures (forall j :: 0 <= j < |a| ==> a[j].FnDecl?) ==> OnlyFunctions(a) == a && OnlyGlobals(a) == []
    ensures (forall j :: 0 <= j < |a| ==> a[j].GlobalDecl?) ==> OnlyGlobals(a) == a && OnlyFunctions(a) == []
    decreases |a|
  {
    if a != [] {
      OnlyThese(a[1..]);
      assert [a[0]] + a[1..] == a;
    }
  }

  /** The imports of a written module, space by space. */
  lemma ImportSpaces(p: Program, sigs: seq<Sig>)
    requires Fitting(p, sigs)
    ensures OnlyFunctions(ImportsOf(p, sigs)) == FnDecls(p, sigs, |p.foreign|) + ConsoleDecl(p)
    ensures |OnlyFunctions(ImportsOf(p, sigs))| == ImportCount(p)
    ensures OnlyGlobals(ImportsOf(p, sigs)) == GlobalDecls(p, |p.foreign|)
  {
    hide FnDecls, GlobalDecls, FnImports, OnlyFunctions, OnlyGlobals, InRange;
    var fns, globals := FnDecls(p, sigs, |p.foreign|), GlobalDecls(p, |p.foreign|);
    OnlyThese(fns);
    OnlyThese(globals);
    OnlyThese(ConsoleDecl(p));
    MemoryIsNeither(p);
    OnlyConcat(MemoryDecl(p) + fns + ConsoleDecl(p), globals);
    OnlyConcat(MemoryDecl(p) + fns, ConsoleDecl(p));
    OnlyConcat(MemoryDecl(p), fns);
  }

  lemma MemoryIsNeither(p: Program)
    ensures OnlyFunctions(MemoryDecl(p)) == [] && OnlyGlobals(MemoryDecl(p)) == []
  {
    assert [MemoryImport][1..] == [];
  }

  // ---- functions ---------------------------------------------------------------------------------------------

  function Written(p: Program, sigs: seq<Sig>): Module
    requires Fitting(p, sigs)
  {
    ModuleOf(p, sigs, EntryOf(p, sigs))
  }

  /** What the index of a function has to name. */
  function Expected(p: Program, sigs: seq<Sig>, f: nat): Function
    requires Fitting(p, sigs) && f < |sigs|
  {
    match FirstImport(p, f, |p.foreign|)
    case Some(i) => Outside(FnDeclOf(p, sigs, i))
    case None => Inside(BodyOf(f), sigs[f].typeIndex)
  }

  lemma FunctionNamed(p: Program, sigs: seq<Sig>, f: nat)
    requires Fitting(p, sigs) && Reached(p, f)
    ensures OwnIndex(p, f).Some? && FunctionAt(Written(p, sigs), OwnIndex(p, f).value) == Expected(p, sigs, f)
  {
    hide FnDecls, FnImports, Defined, DefinedTypes, DefinedBodies, OnlyFunctions, FirstImport, EntryOf, ImportsOf,
      FnDeclOf, InRange;
    ImportSpaces(p, sigs);
    var first := FirstImport(p, f, |p.foreign|);
    if first.Some? {
      FnDeclAt(p, sigs, first.value, |p.foreign|);
    } else {
      DefinedEntryAt(p, sigs, f, |p.decls|);
    }
  }

  lemma ConsoleNamed(p: Program, sigs: seq<Sig>)
    requires Fitting(p, sigs) && p.needs.logger
    ensures FunctionAt(Written(p, sigs), |FnImports(p, |p.foreign|)|)
      == Outside(FnDecl("wasm_min", "console_log", |p.decls| + 2))
  {
    hide FnDecls, FnImports, OnlyFunctions, ImportsOf, EntryOf, InRange;
    ImportSpaces(p, sigs);
    assert |FnDecls(p, sigs, |p.foreign|)| == |FnImports(p, |p.foreign|)|;
  }

  /** The entry at a place after the functions with MIR bodies. */
  lemma LaterFunction(p: Program, sigs: seq<Sig>, k: nat)
    requires Fitting(p, sigs)
    ensures var e := EntryOf(p, sigs); var n := |Defined(p, |p.decls|)|;
      |FunctionsOf(p, sigs, e)| == |BodiesOf(p, e)| &&
      (n + k < |BodiesOf(p, e)| ==>
         FunctionAt(Written(p, sigs), ThunkIndex(p) + k)
           == Inside(BodiesOf(p, e)[n + k], FunctionsOf(p, sigs, e)[n + k]))
  {
    hide Defined, FunctionsOf, BodiesOf, OnlyFunctions, EntryOf, InRange, ImportCount, Written;
    WrittenParts(p, sigs);
    AsManyBodies(p, sigs, EntryOf(p, sigs));
  }

  lemma WrittenParts(p: Program, sigs: seq<Sig>)
    requires Fitting(p, sigs)
    ensures var m, e := Written(p, sigs), EntryOf(p, sigs);
      && m.functions == FunctionsOf(p, sigs, e) && m.bodies == BodiesOf(p, e)
      && |OnlyFunctions(m.imports)| == ImportCount(p)
  {
    hide Defined, FunctionsOf, BodiesOf, OnlyFunctions, ImportsOf, EntryOf, InRange, ImportCount;
    ImportSpaces(p, sigs);
  }

  lemma AsManyBodies(p: Program, sigs: seq<Sig>, e: Entry)
    requires Fitting(p, sigs)
    ensures |FunctionsOf(p, sigs, e)| == |BodiesOf(p, e)|
  {
    hide Defined, DefinedTypes, DefinedBodies, InRange;
    assert |DefinedTypes(p, sigs, |p.decls|)| == |DefinedBodies(p, |p.decls|)|;
  }

  /** The functions that no MIR function stands behind. */
  lemma SupportNamed(p: Program, sigs: seq<Sig>)
    requires Fitting(p, sigs)
    ensures var m, e := Written(p, sigs), EntryOf(p, sigs);
      && (p.needs.logger ==>
        FunctionAt(m, |FnImports(p, |p.foreign|)|) == Outside(FnDecl("wasm_min", "console_log", |p.decls| + 2)))
      && (HasThunk(p) ==> FunctionAt(m, ThunkIndex(p)) == Inside(ThunkBody, |p.decls|))
      && (p.needs.logger ==> FunctionAt(m, ThunkIndex(p) + 1) == Inside(LoggerBody, |p.decls| + 1))
      && (e.hasWrapper ==> FunctionAt(m, e.wrapperFunc) == Inside(WrapperBody, e.wrapperType))
  {
    hide Defined, DefinedTypes, DefinedBodies, FunctionAt, Written, FirstMain, InRange, ImportCount;
    if p.needs.logger {
      ConsoleNamed(p, sigs);
    }
    LaterFunction(p, sigs, 0);
    LaterFunction(p, sigs, 1);
    LaterFunction(p, sigs, One(HasThunk(p)) + One(p.needs.logger));
  }

  /** The platform's panic function is the last import that is marked as such. */
  lemma PanicNamed(p: Program, sigs: seq<Sig>)
    requires Fitting(p, sigs) && LastPanic(p, |p.foreign|).Some?
    ensures PanicIndex(p, |p.foreign|).Some?
    ensures FunctionAt(Written(p, sigs), PanicIndex(p, |p.foreign|).value)
      == Outside(FnDeclOf(p, sigs, LastPanic(p, |p.foreign|).value))
  {
    hide FnDecls, FnImports, OnlyFunctions, ImportsOf, FnDeclOf, InRange, EntryOf, LastPanic;
    ImportSpaces(p, sigs);
    LastPanicIs(p, |p.foreign|);
    FnDeclAt(p, sigs, LastPanic(p, |p.foreign|).value, |p.foreign|);
  }

  lemma LastPanicIs(p: Program, n: nat)
    requires LastPanic(p, n).Some?
    ensures LastPanic(p, n).value < n && IsFnImport(p, LastPanic(p, n).value)
  {
  }

  // ---- globals -----------------------------------------------------------------------------------------------

  /** A global of the module's own, at its place after the imported ones. */
  lemma OwnGlobalAt(p: Program, sigs: seq<Sig>, k: nat)
    requires Fitting(p, sigs) && k < |GlobalsOf(p)|
    ensures GlobalAt(Written(p, sigs), |GlobalImports(p, |p.foreign|)| + k) == Own(GlobalsOf(p)[k])
  {
    hide GlobalDecls, GlobalImports, OnlyGlobals, ImportsOf, EntryOf, InRange, GlobalsOf;
    ImportSpaces(p, sigs);
    assert |GlobalDecls(p, |p.foreign|)| == |GlobalImports(p, |p.foreign|)|;
  }

  lemma GlobalPlaces(p: Program)
    ensures p.needs.frame ==> |GlobalsOf(p)| > 0 && GlobalsOf(p)[0] == FramePointer
    ensures NeedsHeap(p) ==> One(p.needs.frame) < |GlobalsOf(p)| && GlobalsOf(p)[One(p.needs.frame)] == HeapPointer
  {
  }

  lemma ClosurePlace(p: Program, f: nat)
    requires p.needs.closures && f < |p.decls|
    ensures var k := One(p.needs.frame) + One(NeedsHeap(p)) + f; k < |GlobalsOf(p)| && GlobalsOf(p)[k] == ClosureSlot(f)
  {
    var before := (if p.needs.frame then [FramePointer] else []) + if NeedsHeap(p) then [HeapPointer] else [];
    assert GlobalsOf(p) == before + ClosureSlots(|p.decls|);
    assert |before| == One(p.needs.frame) + One(NeedsHeap(p));
    assert (before + ClosureSlots(|p.decls|))[|before| + f] == ClosureSlots(|p.decls|)[f];
  }

  lemma GlobalsNamed(p: Program, sigs: seq<Sig>)
    requires Fitting(p, sigs)
    ensures var m, n := Written(p, sigs), |GlobalImports(p, |p.foreign|)|;
      && (p.needs.frame ==> GlobalAt(m, n) == Own(FramePointer))
      && (NeedsHeap(p) ==> GlobalAt(m, n + One(p.needs.frame)) == Own(HeapPointer))
      && (p.needs.closures ==> forall f: nat :: f < |p.decls| ==>
            GlobalAt(m, n + One(p.needs.frame) + One(NeedsHeap(p)) + f) == Own(ClosureSlot(f)))
  {
    hide GlobalAt, Written, GlobalsOf, GlobalImports, InRange, NeedsHeap, One;
    var n := |GlobalImports(p, |p.foreign|)|;
    GlobalPlaces(p);
    if p.needs.frame {
      OwnGlobalAt(p, sigs, 0);
    }
    if NeedsHeap(p) {
      OwnGlobalAt(p, sigs, One(p.needs.frame));
    }
    if p.needs.closures {
      forall f: nat | f < |p.decls|
        ensures GlobalAt(Written(p, sigs), n + One(p.needs.frame) + One(NeedsHeap(p)) + f) == Own(ClosureSlot(f))
      {
        ClosurePlace(p, f);
        OwnGlobalAt(p, sigs, One(p.needs.frame) + One(NeedsHeap(p)) + f);
        assert n + One(p.needs.frame) + One(NeedsHeap(p)) + f == n + (One(p.needs.frame) + One(NeedsHeap(p)) + f);
      }
    }
  }

  lemma ImportedGlobalNamed(p: Program, sigs: seq<Sig>, f: nat)
    requires Fitting(p, sigs) && GlobalIndex(p, f, |p.foreign|).Some?
    ensures LastGlobal(p, f, |p.foreign|).Some?
    ensures GlobalAt(Written(p, sigs), GlobalIndex(p, f, |p.foreign|).value)
      == Elsewhere(GlobalDeclOf(p, LastGlobal(p, f, |p.foreign|).value))
  {
    hide GlobalDecls, GlobalImports, OnlyGlobals, ImportsOf, EntryOf, InRange;
    ImportSpaces(p, sigs);
    GlobalDeclAt(p, LastGlobal(p, f, |p.foreign|).value, |p.foreign|);
  }

  // ---- types -------------------------------------------------------------------------------------------------

  /** Signatures as they were built, allocators redirected when there is a table. */
  ghost predicate SignaturesOf(p: Program, built: seq<Sig>, sigs: seq<Sig>) {
    && Sized(p) && |built| == |sigs| == |p.decls| && TypesNamed(built)
    && (forall f :: 0 <= f < |built| ==> SigFits(p.decls[f], p.reachable[f], built[f]))
    && forall f :: 0 <= f < |built| ==> sigs[f] == Redirected(p, built[f])
  }

  function Redirected(p: Program, s: Sig): Sig {
    if HasTable(p) && TypeOf(s) == ALLOCATOR_TYPE then s.(typeIndex := |p.decls|) else s
  }

  lemma WrittenTypes(p: Program, sigs: seq<Sig>)
    requires Fitting(p, sigs)
    ensures var types := Written(p, sigs).types;
      && |types| >= |sigs| && (forall j :: 0 <= j < |sigs| ==> types[j] == TypeOf(sigs[j]))
      && (HasTable(p) ==> |types| > |sigs| && types[|sigs|] == ALLOCATOR_TYPE)
  {
    hide EntryOf, InRange, ImportsOf, FunctionsOf, GlobalsOf, ExportsOf, ElementsOf, BodiesOf;
  }

  /** The type index of a signature names its types: its own entry, an earlier one of the same shape, or
      the allocators' one. */
  lemma TypeNamed(p: Program, built: seq<Sig>, sigs: seq<Sig>, f: nat)
    requires SignaturesOf(p, built, sigs) && Fitting(p, sigs) && f < |sigs|
    ensures var types := Written(p, sigs).types;
      sigs[f].typeIndex < |types| && types[sigs[f].typeIndex] == TypeOf(built[f])
  {
    hide Written, SigFits, InRange, HasTable;
    WrittenTypes(p, sigs);
    var g := built[f].typeIndex;
    assert g <= f && TypeOf(built[g]) == TypeOf(built[f]);
    assert sigs[f] == Redirected(p, built[f]) && sigs[g] == Redirected(p, built[g]);
  }

  function TypeIndexOf(x: Function): nat {
    match x
    case Outside(FnDecl(_, _, t)) => t
    case Inside(_, t) => t
    case _ => 0
  }

  /** The entry that a function's index names has the function's declared type. */
  lemma FunctionTyped(p: Program, built: seq<Sig>, sigs: seq<Sig>, f: nat)
    requires SignaturesOf(p, built, sigs) && Fitting(p, sigs) && Reached(p, f)
    ensures OwnIndex(p, f).Some? && p.decls[f].result.Some?
    ensures var m := Written(p, sigs); var t := TypeIndexOf(FunctionAt(m, OwnIndex(p, f).value));
      t < |m.types| && m.types[t] == DeclaredType(p.decls[f])
  {
    hide Written, FunctionAt, OwnIndex, FirstImport, InRange, Redirected, TypesNamed;
    FunctionNamed(p, sigs, f);
    TypeNamed(p, built, sigs, f);
    assert SigFits(p.decls[f], p.reachable[f], built[f]);
    FirstImportIs(p, f, |p.foreign|);
  }

  lemma FirstImportIs(p: Program, f: nat, n: nat)
    ensures FirstImport(p, f, n).Some? ==>
      FirstImport(p, f, n).value < n && IsFnImport(p, FirstImport(p, f, n).value)
        && p.foreign[FirstImport(p, f, n).value].target == f
  {
  }

  /** The types of what is called through the table, of the console's import and of the wrapper. */
  lemma SupportTyped(p: Program, sigs: seq<Sig>)
    requires Fitting(p, sigs)
    ensures var types, e := Written(p, sigs).types, EntryOf(p, sigs);
      && (HasTable(p) ==> |p.decls| < |types| && types[|p.decls|] == ALLOCATOR_TYPE)
      && (p.needs.logger ==>
        |p.decls| + 2 < |types| && types[|p.decls| + 1] == LOGGER_TYPE && types[|p.decls| + 2] == CONSOLE_TYPE)
      && (e.hasWrapper ==> e.wrapperType < |types| && types[e.wrapperType] == WRAPPER_TYPE)
  {
    hide FirstMain, ImportCount, Defined, InRange;
  }

  // ---- the table ---------------------------------------------------------------------------------------------

  /** A function's place in the table holds its index; the places of the others hold a filler. */
  lemma TableNamed(p: Program, sigs: seq<Sig>, f: nat)
    requires Fitting(p, sigs) && HasTable(p) && f < |p.decls|
    ensures var elements := Written(p, sigs).elements;
      f < |elements| && elements[f] == if Reached(p, f) then OwnIndex(p, f) else Filler(p)
  {
    hide EntryOf, Filler, FunctionIndex, InRange;
    FunctionIndexed(p, f);
  }

  lemma FunctionIndexed(p: Program, f: nat)
    ensures OwnIndex(p, f).Some? <==> Reached(p, f)
  {
    FirstImportIs(p, f, |p.foreign|);
  }

  predicate NothingToFillWith(p: Program) {
    |p.decls| > 0 && !HasThunk(p) && forall f: nat :: f < |p.decls| ==> !Reached(p, f)
  }

  /** The table gets an index that names nothing exactly when there is a function, none is reachable, and
      neither allocator nor logger stands in. */
  lemma TableFilledExactly(p: Program, sigs: seq<Sig>)
    requires Fitting(p, sigs) && HasTable(p)
    ensures (exists i: nat :: i < |Written(p, sigs).elements| && Written(p, sigs).elements[i].None?)
      <==> NothingToFillWith(p)
  {
    hide EntryOf, FunctionIndex, InRange, ThunkIndex, FirstIndex;
    var elements := Written(p, sigs).elements;
    forall f: nat | f < |p.decls|
      ensures OwnIndex(p, f).Some? <==> Reached(p, f)
      ensures elements[f] == if Reached(p, f) then OwnIndex(p, f) else Filler(p)
    {
      FunctionIndexed(p, f);
      TableNamed(p, sigs, f);
    }
    FirstIndexIs(p, |p.decls|);
    if NothingToFillWith(p) {
      assert elements[0].None?;
    }
  }

  /** A program with a table and one function that nothing reaches. */
  const UNREACHED := Program([Declared([], None)], [false], [false], [],
    Needs(false, false, false, false, true, false, false, false, false))

  /** Its only table entry names nothing. */
  lemma TableEntryNamesNothing()
    ensures var sigs := [Sig(0, [], [], Void, [], false)];
      && Fitting(UNREACHED, sigs) && HasTable(UNREACHED) && NothingToFillWith(UNREACHED)
      && Written(UNREACHED, sigs).elements == [None]
  {
    hide EntryOf, FunctionIndex, ThunkIndex, FirstIndex;
    var sigs := [Sig(0, [], [], Void, [], false)];
    FunctionIndexed(UNREACHED, 0);
    FirstIndexIs(UNREACHED, 1);
    TableNamed(UNREACHED, sigs, 0);
    assert |Written(UNREACHED, sigs).elements| == 1;
  }

  lemma FirstIndexIs(p: Program, n: nat)
    ensures FirstIndex(p, n).None? <==> forall f: nat :: f < n ==> OwnIndex(p, f).None?
  {
  }

  // ---- imports, spelled out --------------------------------------------------------------------------------------

  /** The first directive that imports the function. */
  predicate FirstImports(p: Program, f: nat, i: nat) {
    && i < |p.foreign| && p.foreign[i].linkage.ImportFn? && p.foreign[i].target == f
    && forall j :: 0 <= j < i ==> !(p.foreign[j].linkage.ImportFn? && p.foreign[j].target == f)
  }

  /** A reached function's index names the field of its first directive's second name in the module of its
      first name, or its own body; either way at the function's declared type. */
  ghost predicate SpelledOut(p: Program, m: Module, f: nat)
    requires f < |p.decls| && p.decls[f].result.Some?
  {
    && OwnIndex(p, f).Some?
    && var x := FunctionAt(m, OwnIndex(p, f).value);
    && TypeIndexOf(x) < |m.types| && m.types[TypeIndexOf(x)] == DeclaredType(p.decls[f])
    && (forall i: nat :: FirstImports(p, f, i) ==>
          x == Outside(FnDecl(p.foreign[i].arg0, p.foreign[i].arg1, TypeIndexOf(x))))
    && ((forall i: nat :: !FirstImports(p, f, i)) ==> x == Inside(BodyOf(f), TypeIndexOf(x)))
  }

  lemma FirstImportsIs(p: Program, f: nat, i: nat)
    requires Reached(p, f)
    ensures FirstImport(p, f, |p.foreign|) == Some(i) <==> FirstImports(p, f, i)
  {
    FirstImportLeast(p, f, |p.foreign|);
  }

  lemma {:induction false} FirstImportLeast(p: Program, f: nat, n: nat)
    requires Reached(p, f) && n <= |p.foreign|
    ensures match FirstImport(p, f, n)
      case Some(i) => FirstImports(p, f, i)
      case None => forall i: nat :: i < n ==> !(p.foreign[i].linkage.ImportFn? && p.foreign[i].target == f)
  {
    if n > 0 {
      FirstImportLeast(p, f, n - 1);
    }
  }

  lemma FunctionSpelledOut(p: Program, built: seq<Sig>, sigs: seq<Sig>, f: nat)
    requires SignaturesOf(p, built, sigs) && Fitting(p, sigs) && Reached(p, f)
    ensures p.decls[f].result.Some? && SpelledOut(p, Written(p, sigs), f)
  {
    hide Written, FunctionAt, OwnIndex, FirstImport, InRange, SignaturesOf, FirstImports, DeclaredType;
    FunctionNamed(p, sigs, f);
    FunctionTyped(p, built, sigs, f);
    forall i: nat
      ensures FirstImport(p, f, |p.foreign|) == Some(i) <==> FirstImports(p, f, i)
    {
      FirstImportsIs(p, f, i);
    }
  }

  /** The last directive that imports the function as a constant or a variable. */
  predicate LastImportsGlobal(p: Program, f: nat, i: nat) {
    && i < |p.foreign| && (p.foreign[i].linkage.ImportConst? || p.foreign[i].linkage.ImportVar?)
    && p.foreign[i].target == f
    && forall j :: i < j < |p.foreign| ==>
         !((p.foreign[j].linkage.ImportConst? || p.foreign[j].linkage.ImportVar?) && p.foreign[j].target == f)
  }

  lemma {:induction false} LastGlobalLatest(p: Program, f: nat, i: nat, n: nat)
    requires Reached(p, f) && LastImportsGlobal(p, f, i) && i < n <= |p.foreign|
    ensures LastGlobal(p, f, n) == Some(i)
  {
    if i + 1 < n {
      LastGlobalLatest(p, f, i, n - 1);
    }
  }

  /** An imported global is the field of the last directive, and can be assigned exactly when that imports a
      variable. */
  lemma GlobalSpelledOut(p: Program, sigs: seq<Sig>, f: nat, i: nat)
    requires Fitting(p, sigs) && Reached(p, f) && LastImportsGlobal(p, f, i)
    ensures GlobalIndex(p, f, |p.foreign|).Some?
    ensures GlobalAt(Written(p, sigs), GlobalIndex(p, f, |p.foreign|).value)
      == Elsewhere(GlobalDecl(p.foreign[i].arg0, p.foreign[i].arg1, p.foreign[i].linkage.ImportVar?))
  {
    hide GlobalAt, Written, LastGlobal;
    LastGlobalLatest(p, f, i, |p.foreign|);
    ImportedGlobalNamed(p, sigs, f);
  }

  /** The last directive that imports a platform panic function. */
  predicate LastImportsPanic(p: Program, i: nat) {
    && i < |p.foreign| && p.foreign[i].linkage.ImportFn? && p.foreign[i].panics && Reached(p, p.foreign[i].target)
    && forall j :: i < j < |p.foreign| ==>
         !(p.foreign[j].linkage.ImportFn? && p.foreign[j].panics && Reached(p, p.foreign[j].target))
  }

  lemma {:induction false} LastPanicLatest(p: Program, i: nat, n: nat)
    requires LastImportsPanic(p, i) && i < n <= |p.foreign|
    ensures LastPanic(p, n) == Some(i)
  {
    if i + 1 < n {
      LastPanicLatest(p, i, n - 1);
    }
  }

  lemma PanicSpelledOut(p: Program, built: seq<Sig>, sigs: seq<Sig>, i: nat)
    requires SignaturesOf(p, built, sigs) && Fitting(p, sigs) && LastImportsPanic(p, i)
    ensures PanicIndex(p, |p.foreign|).Some? && p.foreign[i].target < |p.decls|
    ensures var x := FunctionAt(Written(p, sigs), PanicIndex(p, |p.foreign|).value);
      && x == Outside(FnDecl(p.foreign[i].arg0, p.foreign[i].arg1, TypeIndexOf(x)))
      && TypeIndexOf(x) < |Written(p, sigs).types| && p.decls[p.foreign[i].target].result.Some?
      && Written(p, sigs).types[TypeIndexOf(x)] == DeclaredType(p.decls[p.foreign[i].target])
  {
    hide FunctionAt, Written, LastPanic, DeclaredType, TypesNamed;
    LastPanicLatest(p, i, |p.foreign|);
    PanicNamed(p, sigs);
    var f := p.foreign[i].target;
    assert SigFits(p.decls[f], p.reachable[f], built[f]);
    TypeNamed(p, built, sigs, f);
  }

  // ---- exports -----------------------------------------------------------------------------------------------

  /** What an export of the function has to name. */
  function ExpectedExport(p: Program, sigs: seq<Sig>, f: nat): Function
    requires Fitting(p, sigs) && f < |sigs|
  {
    var e := EntryOf(p, sigs);
    if e.hasWrapper && e.main == Some(f) then Inside(WrapperBody, e.wrapperType) else Expected(p, sigs, f)
  }

  predicate ExportNames(m: Module, x: Export, what: Function) {
    x.index.Some? && FunctionAt(m, x.index.value) == what
  }

  lemma ExportNamed(p: Program, sigs: seq<Sig>, name: string, f: nat)
    requires Fitting(p, sigs) && Reached(p, f)
    ensures ExportNames(Written(p, sigs), Export(name, ExportIndex(p, EntryOf(p, sigs), f)), ExpectedExport(p, sigs, f))
  {
    hide Written, FunctionAt, OwnIndex, EntryOf, Expected, InRange;
    FunctionNamed(p, sigs, f);
    SupportNamed(p, sigs);
  }

  ghost predicate NamesSome(p: Program, sigs: seq<Sig>, x: Export)
    requires Fitting(p, sigs)
  {
    exists f: nat :: Reached(p, f) && ExportNames(Written(p, sigs), x, ExpectedExport(p, sigs, f))
  }

  lemma {:induction false} MainsNamed(p: Program, sigs: seq<Sig>, n: nat)
    requires Fitting(p, sigs) && n <= |p.decls|
    ensures forall j :: 0 <= j < |MainExports(p, EntryOf(p, sigs), n)| ==>
      NamesSome(p, sigs, MainExports(p, EntryOf(p, sigs), n)[j])
  {
    hide Written, EntryOf, ExpectedExport, ExportNames, ExportIndex, InRange;
    if n > 0 {
      MainsNamed(p, sigs, n - 1);
      if Reached(p, n - 1) {
        ExportNamed(p, sigs, "hop_main", n - 1);
        assert NamesSome(p, sigs, Export("hop_main", ExportIndex(p, EntryOf(p, sigs), n - 1)));
      }
    }
  }

  lemma {:induction false} DirectivesNamed(p: Program, sigs: seq<Sig>, n: nat)
    requires Fitting(p, sigs) && n <= |p.foreign|
    ensures forall j :: 0 <= j < |NamedExports(p, EntryOf(p, sigs), n)| ==>
      NamesSome(p, sigs, NamedExports(p, EntryOf(p, sigs), n)[j])
  {
    hide Written, EntryOf, ExpectedExport, ExportNames, ExportIndex, InRange;
    if n > 0 {
      DirectivesNamed(p, sigs, n - 1);
      if IsExport(p, n - 1) {
        var x := p.foreign[n - 1];
        ExportNamed(p, sigs, x.arg0, x.target);
        assert NamesSome(p, sigs, Export(x.arg0, ExportIndex(p, EntryOf(p, sigs), x.target)));
      }
    }
  }

  /** Every export names a function: `main`, the wrapper around it, or what a directive asks for. The
      announced number of exports is the number written. */
  lemma ExportsNamed(p: Program, sigs: seq<Sig>)
    requires Fitting(p, sigs)
    ensures var m := Written(p, sigs);
      && m.exportCount == One(!p.needs.importMemory) + |m.exports|
      && forall j :: 0 <= j < |m.exports| ==> NamesSome(p, sigs, m.exports[j])
  {
    hide NamesSome, EntryOf, MainExports, NamedExports, InRange, ImportsOf, FunctionsOf, BodiesOf, ElementsOf,
      GlobalsOf;
    MainsNamed(p, sigs, |p.decls|);
    DirectivesNamed(p, sigs, |p.foreign|);
  }

  /** The exports are those of the reached mains, in order, and then those that directives ask for, each with
      its own name and function. */
  lemma ExportsSpelledOut(p: Program, sigs: seq<Sig>, f: nat, i: nat)
    requires Fitting(p, sigs)
    ensures var m := Written(p, sigs);
      && |m.exports| == Mains(p, |p.decls|) + Directives(p, |p.foreign|)
      && (Reached(p, f) && p.isMain[f] ==>
            && Mains(p, f) < |m.exports| && m.exports[Mains(p, f)].name == "hop_main"
            && ExportNames(m, m.exports[Mains(p, f)], ExpectedExport(p, sigs, f)))
      && (i < |p.foreign| && p.foreign[i].linkage.ExportFn? && Reached(p, p.foreign[i].target) ==>
            && var x := Mains(p, |p.decls|) + Directives(p, i);
            && x < |m.exports| && m.exports[x].name == p.foreign[i].arg0
            && ExportNames(m, m.exports[x], ExpectedExport(p, sigs, p.foreign[i].target)))
  {
    hide EntryOf, MainExports, NamedExports, InRange, ImportsOf, FunctionsOf, BodiesOf, ElementsOf, GlobalsOf,
      ExportNames, ExpectedExport, FunctionAt, OwnIndex;
    var e := EntryOf(p, sigs);
    MainExportAt(p, e, f, |p.decls|);
    NamedExportAt(p, e, i, |p.foreign|);
    if Reached(p, f) {
      ExportNamed(p, sigs, "hop_main", f);
    }
    if i < |p.foreign| && Reached(p, p.foreign[i].target) {
      ExportNamed(p, sigs, p.foreign[i].arg0, p.foreign[i].target);
    }
  }

  /** How many mains are reached among the first `n` functions. */
  function Mains(p: Program, n: nat): nat
    requires Sized(p) && n <= |p.decls|
  {
    if n == 0 then 0 else Mains(p, n - 1) + One(p.reachable[n - 1] && p.isMain[n - 1])
  }

  function Directives(p: Program, n: nat): nat
    requires n <= |p.foreign|
  {
    if n == 0 then 0 else Directives(p, n - 1) + One(IsExport(p, n - 1))
  }

  lemma {:induction false} MainExportAt(p: Program, e: Entry, f: nat, n: nat)
    requires Sized(p) && n <= |p.decls|
    ensures |MainExports(p, e, n)| == Mains(p, n)
    ensures f < n && Reached(p, f) && p.isMain[f] ==>
      Mains(p, f) < Mains(p, n) && MainExports(p, e, n)[Mains(p, f)] == Export("hop_main", ExportIndex(p, e, f))
    decreases n
  {
    hide ExportIndex;
    if n > 0 {
      MainExportAt(p, e, f, n - 1);
    }
  }

  lemma {:induction false} NamedExportAt(p: Program, e: Entry, i: nat, n: nat)
    requires n <= |p.foreign|
    ensures |NamedExports(p, e, n)| == Directives(p, n)
    ensures i < n && IsExport(p, i) ==>
      && Directives(p, i) < Directives(p, n)
      && NamedExports(p, e, n)[Directives(p, i)] == Export(p.foreign[i].arg0, ExportIndex(p, e, p.foreign[i].target))
    decreases n
  {
    hide ExportIndex, IsExport;
    if n > 0 {
      NamedExportAt(p, e, i, n - 1);
    }
  }

  // ---- all of it ---------------------------------------------------------------------------------------------

  /** The entry that each reachable function's index names is its import or its body, of its declared type. */
  ghost predicate AllNamed(p: Program, sigs: seq<Sig>, m: Module)
    requires Fitting(p, sigs)
  {
    forall f: nat :: Reached(p, f) ==> NamedAndTyped(p, sigs, m, f)
  }

  ghost predicate NamedAndTyped(p: Program, sigs: seq<Sig>, m: Module, f: nat)
    requires Fitting(p, sigs) && Reached(p, f)
  {
    && OwnIndex(p, f).Some? && FunctionAt(m, OwnIndex(p, f).value) == Expected(p, sigs, f)
    && p.decls[f].result.Some? && TypeIndexOf(Expected(p, sigs, f)) < |m.types|
    && m.types[TypeIndexOf(Expected(p, sigs, f))] == DeclaredType(p.decls[f])
    && SpelledOut(p, m, f)
  }

  /**
   * Signatures, indices and sections of a whole program: written for exactly the supported and accepted
   * programs, and then every function's index is right.
   */
  method BuildModule(p: Program, layout: ImportLayout) returns (m: Option<Module>, ghost sigs: seq<Sig>)
    requires Sized(p) && layout.SizedFor(|p.decls|) && layout.Blank(|p.decls|)
    modifies layout, layout.funcWasmIndices, layout.globalImportIndices, layout.importedFunctions
    ensures m.Some? <==> AllSupported(p.decls, p.reachable) && Accepted(p)
    ensures m.Some? ==> Fitting(p, sigs) && m.value == Written(p, sigs) && AllNamed(p, sigs, m.value)
  {
    hide AllSupported, GlobalsOk, LastPanic, TypesNamed, SigFits, FirstImport, FnImports, Defined, GlobalImports,
      ModuleOf, EntryOf, NamedAndTyped;
    sigs := [];
    var built := BuildFunctionSignatures(p.decls, p.reachable);
    if built.None? {
      return None, sigs;
    }
    var ok := layout.Analyze(p);
    if !ok {
      return None, sigs;
    }
    var final := built.value;
    if HasTable(p) {
      final := RedirectAllocators(final, layout.allocatorIndirectTypeIndex.value);
    }
    sigs := final;
    var written := WriteModule(p, final, layout);
    forall f: nat | Reached(p, f)
      ensures NamedAndTyped(p, sigs, written, f)
    {
      IsNamed(p, built.value, sigs, f);
    }
    m := Some(written);
  }

  lemma IsNamed(p: Program, built: seq<Sig>, sigs: seq<Sig>, f: nat)
    requires SignaturesOf(p, built, sigs) && Fitting(p, sigs) && Reached(p, f)
    ensures NamedAndTyped(p, sigs, Written(p, sigs), f)
  {
    hide Written, FunctionAt, OwnIndex, Expected, SignaturesOf, DeclaredType, SpelledOut;
    FunctionNamed(p, sigs, f);
    FunctionTyped(p, built, sigs, f);
    FunctionSpelledOut(p, built, sigs, f);
  }
}
