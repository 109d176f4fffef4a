/**
 * The sections of a module that define its types, functions, globals and table, and what an index
 * stands for in each of them. The loops below write the sections; the lemmas say that every planned
 * index names what it was planned for, and what the table is filled with.
 */
module ModuleSections {
  import opened Words
  import opened Signatures
  import opened IndexSpaces

  datatype ImportDecl =
    | MemoryImport
    | FnDecl(owner: string, field: string, typeIndex: nat)
    | GlobalDecl(owner: string, field: string, mutable_: bool)

  datatype Body = BodyOf(f: nat) | ThunkBody | LoggerBody | WrapperBody

  datatype GlobalDef = FramePointer | HeapPointer | ClosureSlot(f: nat)

  datatype Export = Export(name: string, index: Option<nat>)

  /** An exported `main` whose result a caller could not take gets a wrapper. */
  datatype Entry = Entry(main: Option<nat>, hasWrapper: bool, wrapperType: nat, wrapperFunc: nat)

  datatype Module = Module(
    types: seq<FuncType>,
    imports: seq<ImportDecl>,
    functions: seq<nat>,
    globals: seq<GlobalDef>,
    exportCount: nat,
    exports: seq<Export>,
    elements: seq<Option<nat>>,
    bodies: seq<Body>)

  const LOGGER_TYPE := FuncType([TYPE_I32, TYPE_I32, TYPE_I32, TYPE_I32, TYPE_I32], [])
  const CONSOLE_TYPE := FuncType([TYPE_I32, TYPE_I32, TYPE_I32], [])
  const WRAPPER_TYPE := FuncType([], [])

  // ---- the entry point -----------------------------------------------------------------------------------

  function FirstMain(p: Program, n: nat): (r: Option<nat>)
    requires n <= |p.isMain|
    ensures r.Some? ==> r.value < n && p.isMain[r.value]
  {
    if n == 0 then None
    else if FirstMain(p, n - 1).Some? then FirstMain(p, n - 1)
    else if p.isMain[n - 1] then Some(n - 1)
    else None
  }

  function EntryOf(p: Program, sigs: seq<Sig>): Entry
    requires Sized(p) && |sigs| == |p.decls|
  {
    var main := FirstMain(p, |p.isMain|);
    if main.None? || sigs[main.value].resultKind == Void || sigs[main.value].resultKind == I32 then
      Entry(main, false, 0, 0)
    else
      Entry(main, true, |p.decls| + One(HasTable(p)) + 2 * One(p.needs.logger),
            ImportCount(p) + |Defined(p, |p.decls|)| + One(HasThunk(p)) + One(p.needs.logger))
  }

  method PlanEntry(p: Program, sigs: seq<Sig>, layout: ImportLayout) returns (e: Entry)
    requires Sized(p) && |sigs| == |p.decls| && layout.SizedFor(|p.decls|) && layout.Planned(p)
    ensures e == EntryOf(p, sigs)
  {
    hide Defined, FnImports;
    var i := 0;
    while i < |p.decls|
      invariant 0 <= i <= |p.decls| && FirstMain(p, i).None?
    {
      if p.isMain[i] {
        assert FirstMain(p, i + 1) == Some(i);
        FirstMainStays(p, i + 1, |p.isMain|);
        if sigs[i].resultKind == Void || sigs[i].resultKind == I32 {
          return Entry(Some(i), false, 0, 0);
        }
        var typeIndex := |p.decls| + One(HasTable(p));
        if p.needs.logger {
          typeIndex := typeIndex + 2;
        }
        return Entry(Some(i), true, typeIndex,
          layout.importFuncCount + layout.definedFuncCount + One(HasThunk(p)) + One(p.needs.logger));
      }
      i := i + 1;
    }
    e := Entry(None, false, 0, 0);
  }

  lemma {:induction false} FirstMainStays(p: Program, i: nat, n: nat)
    requires i <= n <= |p.isMain| && FirstMain(p, i).Some?
    ensures FirstMain(p, n) == FirstMain(p, i)
    decreases n
  {
    if i < n {
      FirstMainStays(p, i, n - 1);
    }
  }

  // ---- what is written --------------------------------------------------------------------------------------

  /** One signature per function, in range of the program. */
  predicate Fitting(p: Program, sigs: seq<Sig>) {
    Sized(p) && InRange(p) && |sigs| == |p.decls|
  }

  function TypesOf(sigs: seq<Sig>, n: nat): (r: seq<FuncType>)
    requires n <= |sigs|
    ensures |r| == n && forall i :: 0 <= i < n ==> r[i] == TypeOf(sigs[i])
  {
    seq(n, i requires 0 <= i < n => TypeOf(sigs[i]))
  }

  /** The types that no MIR function has of its own. */
  function ExtraTypes(p: Program, e: Entry): seq<FuncType> {
    (if HasTable(p) then [ALLOCATOR_TYPE] else [])
    + (if p.needs.logger then [LOGGER_TYPE, CONSOLE_TYPE] else [])
    + (if e.hasWrapper then [WRAPPER_TYPE] else [])
  }

  function FnDeclOf(p: Program, sigs: seq<Sig>, i: nat): ImportDecl
    requires Fitting(p, sigs) && i < |p.foreign|
  {
    FnDecl(p.foreign[i].arg0, p.foreign[i].arg1, sigs[p.foreign[i].target].typeIndex)
  }

  function GlobalDeclOf(p: Program, i: nat): ImportDecl
    requires i < |p.foreign|
  {
    GlobalDecl(p.foreign[i].arg0, p.foreign[i].arg1, p.foreign[i].linkage.ImportVar?)
  }

  function FnDecls(p: Program, sigs: seq<Sig>, n: nat): (r: seq<ImportDecl>)
    requires Fitting(p, sigs) && n <= |p.foreign|
    ensures |r| == |FnImports(p, n)|
    ensures forall j :: 0 <= j < |r| ==> r[j].FnDecl?
  {
    if n == 0 then [] else FnDecls(p, sigs, n - 1) + if IsFnImport(p, n - 1) then [FnDeclOf(p, sigs, n - 1)] else []
  }

  function GlobalDecls(p: Program, n: nat): (r: seq<ImportDecl>)
    requires n <= |p.foreign|
    ensures |r| == |GlobalImports(p, n)|
    ensures forall j :: 0 <= j < |r| ==> r[j].GlobalDecl?
  {
    if n == 0 then [] else GlobalDecls(p, n - 1) + if IsGlobalImport(p, n - 1) then [GlobalDeclOf(p, n - 1)] else []
  }

  /** An entry stands after the entries of its kind that come before it. */
  lemma {:induction false} FnDeclAt(p: Program, sigs: seq<Sig>, i: nat, n: nat)
    requires Fitting(p, sigs) && i < n <= |p.foreign| && IsFnImport(p, i)
    ensures |FnImports(p, i)| < |FnDecls(p, sigs, n)| && FnDecls(p, sigs, n)[|FnImports(p, i)|] == FnDeclOf(p, sigs, i)
    decreases n
  {
    hide FnDeclOf, IsFnImport;
    if i + 1 < n {
      FnDeclAt(p, sigs, i, n - 1);
    } else {
      assert |FnDecls(p, sigs, i)| == |FnImports(p, i)|;
    }
  }

  lemma {:induction false} GlobalDeclAt(p: Program, i: nat, n: nat)
    requires i < n <= |p.foreign| && IsGlobalImport(p, i)
    ensures |GlobalImports(p, i)| < |GlobalDecls(p, n)|
      && GlobalDecls(p, n)[|GlobalImports(p, i)|] == GlobalDeclOf(p, i)
    decreases n
  {
    hide GlobalDeclOf, IsGlobalImport;
    if i + 1 < n {
      GlobalDeclAt(p, i, n - 1);
    } else {
      assert |GlobalDecls(p, i)| == |GlobalImports(p, i)|;
    }
  }

  function ConsoleDecl(p: Program): seq<ImportDecl> {
    if p.needs.logger then [FnDecl("wasm_min", "console_log", |p.decls| + 2)] else []
  }

  function MemoryDecl(p: Program): seq<ImportDecl> {
    if p.needs.importMemory then [MemoryImport] else []
  }

  function ImportsOf(p: Program, sigs: seq<Sig>): seq<ImportDecl>
    requires Fitting(p, sigs)
  {
    MemoryDecl(p) + FnDecls(p, sigs, |p.foreign|) + ConsoleDecl(p) + GlobalDecls(p, |p.foreign|)
  }

  /** The type indices, and the bodies, of the functions with bodies of their own. */
  function DefinedTypes(p: Program, sigs: seq<Sig>, n: nat): (r: seq<nat>)
    requires Sized(p) && n <= |sigs| == |p.decls|
    ensures |r| == |Defined(p, n)|
  {
    if n == 0 then []
    else DefinedTypes(p, sigs, n - 1) + if Reached(p, n - 1) && !Imported(p, n - 1) then [sigs[n - 1].typeIndex] else []
  }

  function DefinedBodies(p: Program, n: nat): (r: seq<Body>)
    ensures |r| == |Defined(p, n)|
  {
    if n == 0 then []
    else DefinedBodies(p, n - 1) + if Reached(p, n - 1) && !Imported(p, n - 1) then [BodyOf(n - 1)] else []
  }

  lemma {:induction false} DefinedEntryAt(p: Program, sigs: seq<Sig>, f: nat, n: nat)
    requires Sized(p) && f < n <= |sigs| == |p.decls| && Reached(p, f) && !Imported(p, f)
    ensures |Defined(p, f)| < |DefinedTypes(p, sigs, n)| == |DefinedBodies(p, n)|
    ensures DefinedTypes(p, sigs, n)[|Defined(p, f)|] == sigs[f].typeIndex
      && DefinedBodies(p, n)[|Defined(p, f)|] == BodyOf(f)
    decreases n
  {
    hide Imported;
    if f + 1 < n {
      DefinedEntryAt(p, sigs, f, n - 1);
    } else {
      assert |DefinedTypes(p, sigs, f)| == |DefinedBodies(p, f)| == |Defined(p, f)|;
    }
  }

  function FunctionsOf(p: Program, sigs: seq<Sig>, e: Entry): seq<nat>
    requires Sized(p) && |sigs| == |p.decls|
  {
    DefinedTypes(p, sigs, |p.decls|) + (if HasThunk(p) then [|p.decls|] else [])
    + (if p.needs.logger then [|p.decls| + 1] else []) + (if e.hasWrapper then [e.wrapperType] else [])
  }

  function BodiesOf(p: Program, e: Entry): seq<Body> {
    DefinedBodies(p, |p.decls|) + (if HasThunk(p) then [ThunkBody] else [])
    + (if p.needs.logger then [LoggerBody] else []) + (if e.hasWrapper then [WrapperBody] else [])
  }

  function ClosureSlots(n: nat): (r: seq<GlobalDef>)
    ensures |r| == n && forall f :: 0 <= f < n ==> r[f] == ClosureSlot(f)
  {
    seq(n, f requires 0 <= f < n => ClosureSlot(f))
  }

  function GlobalsOf(p: Program): seq<GlobalDef> {
    (if p.needs.frame then [FramePointer] else []) + (if NeedsHeap(p) then [HeapPointer] else [])
    + ClosureSlots(if p.needs.closures then |p.decls| else 0)
  }

  function OwnIndex(p: Program, f: nat): Option<nat> {
    FunctionIndex(p, f, ImportCount(p))
  }

  function FirstIndex(p: Program, n: nat): (r: Option<nat>)
    ensures r.None? <==> forall f: nat :: f < n ==> OwnIndex(p, f).None?
  {
    if n == 0 then None else if FirstIndex(p, n - 1).Some? then FirstIndex(p, n - 1) else OwnIndex(p, n - 1)
  }

  function ThunkIndex(p: Program): nat { ImportCount(p) + |Defined(p, |p.decls|)| }

  /** What stands in the table for a function that is not part of the module. */
  function Filler(p: Program): Option<nat> {
    if p.needs.logger then Some(ThunkIndex(p) + 1)
    else if HasThunk(p) then Some(ThunkIndex(p))
    else FirstIndex(p, |p.decls|)
  }

  function Elements(p: Program, n: nat): (r: seq<Option<nat>>)
    ensures |r| == n
    ensures forall f :: 0 <= f < n ==> r[f] == if OwnIndex(p, f).Some? then OwnIndex(p, f) else Filler(p)
  {
    seq(n, f requires 0 <= f < n => if OwnIndex(p, f).Some? then OwnIndex(p, f) else Filler(p))
  }

  function ElementsOf(p: Program): seq<Option<nat>> {
    if !HasTable(p) then []
    else
      Elements(p, |p.decls|) + (if HasThunk(p) then [Some(ThunkIndex(p))] else [])
      + if p.needs.logger then [Some(ThunkIndex(p) + 1)] else []
  }

  function ExportIndex(p: Program, e: Entry, f: nat): Option<nat> {
    if e.hasWrapper && e.main == Some(f) then Some(e.wrapperFunc) else OwnIndex(p, f)
  }

  function MainExports(p: Program, e: Entry, n: nat): seq<Export>
    requires Sized(p) && n <= |p.decls|
  {
    if n == 0 then []
    else
      MainExports(p, e, n - 1)
      + if p.reachable[n - 1] && p.isMain[n - 1] then [Export("hop_main", ExportIndex(p, e, n - 1))] else []
  }

  function NamedExports(p: Program, e: Entry, n: nat): seq<Export>
    requires n <= |p.foreign|
  {
    if n == 0 then []
    else
      NamedExports(p, e, n - 1)
      + if IsExport(p, n - 1) then [Export(p.foreign[n - 1].arg0, ExportIndex(p, e, p.foreign[n - 1].target))] else []
  }

  function ExportsOf(p: Program, e: Entry): seq<Export>
    requires Sized(p)
  {
    MainExports(p, e, |p.decls|) + NamedExports(p, e, |p.foreign|)
  }

  /** Everything that is written for a program. */
  function ModuleOf(p: Program, sigs: seq<Sig>, e: Entry): Module
    requires Fitting(p, sigs)
  {
    Module(
      TypesOf(sigs, |sigs|) + ExtraTypes(p, e), ImportsOf(p, sigs), FunctionsOf(p, sigs, e), GlobalsOf(p),
      One(!p.needs.importMemory) + |ExportsOf(p, e)|, ExportsOf(p, e), ElementsOf(p), BodiesOf(p, e))
  }

  // ---- the loops that write it -------------------------------------------------------------------------------

  method WriteTypes(p: Program, sigs: seq<Sig>, e: Entry) returns (types: seq<FuncType>)
    ensures types == TypesOf(sigs, |sigs|) + ExtraTypes(p, e)
  {
    types := [];
    var i := 0;
    while i < |sigs|
      invariant 0 <= i <= |sigs| && types == TypesOf(sigs, i)
    {
      types := types + [TypeOf(sigs[i])];
      i := i + 1;
    }
    var own := types;
    if HasTable(p) {
      types := types + [ALLOCATOR_TYPE];
    }
    if p.needs.logger {
      types := types + [LOGGER_TYPE, CONSOLE_TYPE];
    }
    if e.hasWrapper {
      types := types + [WRAPPER_TYPE];
    }
    assert types == own + ExtraTypes(p, e);
  }

  method WriteFnImports(p: Program, sigs: seq<Sig>) returns (imports: seq<ImportDecl>)
    requires Fitting(p, sigs)
    ensures imports == MemoryDecl(p) + FnDecls(p, sigs, |p.foreign|)
  {
    hide FnImports;
    imports := if p.needs.importMemory then [MemoryImport] else [];
    var i := 0;
    while i < |p.foreign|
      invariant 0 <= i <= |p.foreign| && imports == MemoryDecl(p) + FnDecls(p, sigs, i)
    {
      var entry := p.foreign[i];
      if entry.linkage.ImportFn? {
        if p.reachable[entry.target] {
          imports := imports + [FnDecl(entry.arg0, entry.arg1, sigs[entry.target].typeIndex)];
        }
      }
      i := i + 1;
    }
  }

  method WriteGlobalImports(p: Program) returns (imports: seq<ImportDecl>)
    requires Sized(p) && InRange(p)
    ensures imports == GlobalDecls(p, |p.foreign|)
  {
    hide GlobalImports;
    imports := [];
    var i := 0;
    while i < |p.foreign|
      invariant 0 <= i <= |p.foreign| && imports == GlobalDecls(p, i)
    {
      var entry := p.foreign[i];
      if entry.linkage.ImportConst? || entry.linkage.ImportVar? {
        if p.reachable[entry.target] {
          imports := imports + [GlobalDecl(entry.arg0, entry.arg1, entry.linkage.ImportVar?)];
        }
      }
      i := i + 1;
    }
  }

  /** Functions come before globals, whatever the order of their directives. */
  method WriteImports(p: Program, sigs: seq<Sig>, layout: ImportLayout) returns (imports: seq<ImportDecl>)
    requires Fitting(p, sigs) && layout.TablePlanned(p)
    ensures imports == ImportsOf(p, sigs)
  {
    hide FnDecls, GlobalDecls, MemoryDecl;
    imports := WriteFnImports(p, sigs);
    if p.needs.logger {
      imports := imports + [FnDecl("wasm_min", "console_log", layout.consoleLogTypeIndex.value)];
    }
    var globals := WriteGlobalImports(p);
    imports := imports + globals;
  }

  method WriteFunctions(p: Program, sigs: seq<Sig>, layout: ImportLayout, e: Entry) returns (functions: seq<nat>)
    requires Sized(p) && |sigs| == |p.decls| && layout.SizedFor(|p.decls|) && layout.Planned(p)
    ensures functions == FunctionsOf(p, sigs, e)
  {
    hide GlobalImports, FnImports, FirstImport, LastGlobal, LastPanic, Imported, OwnIndex, FunctionIndex;
    functions := [];
    var i := 0;
    while i < |p.decls|
      invariant 0 <= i <= |p.decls| && functions == DefinedTypes(p, sigs, i)
    {
      if p.reachable[i] && !layout.importedFunctions[i] {
        functions := functions + [sigs[i].typeIndex];
      }
      i := i + 1;
    }
    if HasThunk(p) {
      functions := functions + [layout.allocatorIndirectTypeIndex.value];
    }
    if p.needs.logger {
      functions := functions + [layout.loggerIndirectTypeIndex.value];
    }
    if e.hasWrapper {
      functions := functions + [e.wrapperType];
    }
  }

  method WriteBodies(p: Program, layout: ImportLayout, e: Entry) returns (bodies: seq<Body>)
    requires Sized(p) && layout.SizedFor(|p.decls|) && layout.Planned(p)
    ensures bodies == BodiesOf(p, e)
  {
    hide GlobalImports, FnImports, FirstImport, LastGlobal, LastPanic, Imported, OwnIndex, FunctionIndex;
    bodies := [];
    var i := 0;
    while i < |p.decls|
      invariant 0 <= i <= |p.decls| && bodies == DefinedBodies(p, i)
    {
      if p.reachable[i] && !layout.importedFunctions[i] {
        bodies := bodies + [BodyOf(i)];
      }
      i := i + 1;
    }
    if HasThunk(p) {
      bodies := bodies + [ThunkBody];
    }
    if p.needs.logger {
      bodies := bodies + [LoggerBody];
    }
    if e.hasWrapper {
      bodies := bodies + [WrapperBody];
    }
  }

  lemma NoSlots()
    ensures ClosureSlots(0) == []
  {
  }

  lemma OneMoreSlot(n: nat)
    ensures ClosureSlots(n + 1) == ClosureSlots(n) + [ClosureSlot(n)]
  {
  }

  method WriteGlobals(p: Program, layout: ImportLayout) returns (globals: seq<GlobalDef>)
    requires layout.GlobalsPlanned(p)
    ensures globals == GlobalsOf(p)
  {
    hide ClosureSlots;
    globals := [];
    if p.needs.frame {
      globals := globals + [FramePointer];
    }
    if NeedsHeap(p) {
      globals := globals + [HeapPointer];
    }
    ghost var before := globals;
    var f := 0;
    NoSlots();
    while f < layout.closureGlobalCount
      invariant 0 <= f <= layout.closureGlobalCount && globals == before + ClosureSlots(f)
    {
      OneMoreSlot(f);
      globals := globals + [ClosureSlot(f)];
      f := f + 1;
    }
  }

  method FindFiller(p: Program, layout: ImportLayout) returns (filler: Option<nat>)
    requires Sized(p) && layout.SizedFor(|p.decls|) && layout.Planned(p) && |p.decls| > 0
    ensures filler == Filler(p)
  {
    hide GlobalImports, FnImports, FirstImport, LastGlobal, LastPanic, Imported, FunctionIndex, GlobalIndex;
    filler :=
      if p.needs.logger then layout.loggerFuncIndex
      else if HasThunk(p) then layout.rootAllocFuncIndex
      else layout.funcWasmIndices[0];
    if filler.None? {
      var i := 0;
      while i < |p.decls|
        invariant 0 <= i <= |p.decls| && FirstIndex(p, i).None? && filler.None?
      {
        filler := layout.funcWasmIndices[i];
        if filler.Some? {
          assert FirstIndex(p, i + 1) == filler;
          FirstIndexStays(p, i + 1, |p.decls|);
          return;
        }
        i := i + 1;
      }
    } else if !HasThunk(p) {
      assert FirstIndex(p, 1) == filler;
      FirstIndexStays(p, 1, |p.decls|);
    }
  }

  lemma {:induction false} FirstIndexStays(p: Program, i: nat, n: nat)
    requires i <= n && FirstIndex(p, i).Some?
    ensures FirstIndex(p, n) == FirstIndex(p, i)
    decreases n
  {
    hide OwnIndex;
    if i < n {
      FirstIndexStays(p, i, n - 1);
    }
  }

  method WriteElements(p: Program, layout: ImportLayout) returns (elements: seq<Option<nat>>)
    requires Sized(p) && layout.SizedFor(|p.decls|) && layout.Planned(p)
    ensures elements == ElementsOf(p) && (HasTable(p) ==> |elements| == layout.tableFuncCount)
  {
    hide Filler, FirstIndex, GlobalImports, FnImports, FirstImport, LastGlobal, LastPanic, Imported, FunctionIndex,
      GlobalIndex;
    elements := [];
    if !HasTable(p) {
      return;
    }
    var i := 0;
    while i < |p.decls|
      invariant 0 <= i <= |p.decls| && elements == Elements(p, i)
    {
      var index := layout.funcWasmIndices[i];
      if index.None? {
        index := FindFiller(p, layout);
      }
      elements := elements + [index];
      i := i + 1;
    }
    if HasThunk(p) {
      elements := elements + [layout.rootAllocFuncIndex];
    }
    if p.needs.logger {
      elements := elements + [layout.loggerFuncIndex];
    }
  }

  /** The number of exports is counted before any of them is written. */
  method CountExports(p: Program, e: Entry) returns (count: nat)
    requires Sized(p) && InRange(p)
    ensures count == One(!p.needs.importMemory) + |ExportsOf(p, e)|
  {
    count := if p.needs.importMemory then 0 else 1;
    var i := 0;
    while i < |p.decls|
      invariant 0 <= i <= |p.decls| && count == One(!p.needs.importMemory) + |MainExports(p, e, i)|
    {
      if p.reachable[i] && p.isMain[i] {
        count := count + 1;
      }
      i := i + 1;
    }
    i := 0;
    while i < |p.foreign|
      invariant 0 <= i <= |p.foreign|
      invariant count == One(!p.needs.importMemory) + |MainExports(p, e, |p.decls|)| + |NamedExports(p, e, i)|
    {
      if p.foreign[i].linkage.ExportFn? && p.reachable[p.foreign[i].target] {
        count := count + 1;
      }
      i := i + 1;
    }
  }

  method WriteExports(p: Program, layout: ImportLayout, e: Entry) returns (exports: seq<Export>)
    requires Sized(p) && InRange(p) && layout.SizedFor(|p.decls|) && layout.Planned(p)
    ensures exports == ExportsOf(p, e)
  {
    hide GlobalImports, FnImports, FirstImport, LastGlobal, LastPanic, Imported, FunctionIndex, Defined, ImportCount,
      GlobalIndex;
    exports := [];
    var i := 0;
    while i < |p.decls|
      invariant 0 <= i <= |p.decls| && exports == MainExports(p, e, i)
    {
      if p.reachable[i] && p.isMain[i] {
        var index :=
          if e.hasWrapper && e.main == Some(i) then Some(e.wrapperFunc) else layout.funcWasmIndices[i];
        exports := exports + [Export("hop_main", index)];
      }
      i := i + 1;
    }
    ghost var mains := exports;
    i := 0;
    while i < |p.foreign|
      invariant 0 <= i <= |p.foreign| && exports == mains + NamedExports(p, e, i)
    {
      var entry := p.foreign[i];
      if entry.linkage.ExportFn? && p.reachable[entry.target] {
        var index :=
          if e.hasWrapper && e.main == Some(entry.target) then Some(e.wrapperFunc)
          else layout.funcWasmIndices[entry.target];
        exports := exports + [Export(entry.arg0, index)];
      }
      i := i + 1;
    }
  }

  /** The module's index-bearing sections, as one function of the program and its signatures. */
  method WriteModule(p: Program, sigs: seq<Sig>, layout: ImportLayout) returns (m: Module)
    requires Fitting(p, sigs) && layout.SizedFor(|p.decls|) && layout.Planned(p)
    ensures m == ModuleOf(p, sigs, EntryOf(p, sigs))
  {
    hide TypesOf, ExtraTypes, ImportsOf, FunctionsOf, GlobalsOf, ExportsOf, ElementsOf, BodiesOf, EntryOf;
    var e := PlanEntry(p, sigs, layout);
    var types := WriteTypes(p, sigs, e);
    var imports := WriteImports(p, sigs, layout);
    var functions := WriteFunctions(p, sigs, layout, e);
    var globals := WriteGlobals(p, layout);
    var count := CountExports(p, e);
    var exports := WriteExports(p, layout, e);
    var elements := WriteElements(p, layout);
    var bodies := WriteBodies(p, layout, e);
    m := Module(types, imports, functions, globals, count, exports, elements, bodies);
  }
}
