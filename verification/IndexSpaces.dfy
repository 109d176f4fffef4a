/**
 * Index spaces (sections 2.5.1 and 5.5 of the WebAssembly Core Specification 1.0). Indices are planned
 * in one pass over the program, and the sections that give them their meaning are written by other
 * loops. Every planned index names the entry that it was planned for.
 */
module IndexSpaces {
  import opened Words
  import opened Signatures

  datatype Linkage = ImportFn | ImportConst | ImportVar | ExportFn

  /** A linkage directive about one function; `panics` marks the platform's panic function. */
  datatype Foreign = Foreign(linkage: Linkage, target: nat, arg0: string, arg1: string, panics: bool)

  /** What the program needs besides its functions, each found by a scan over its instructions. */
  datatype Needs = Needs(
    frame: bool, heap: bool, rootAllocator: bool, logger: bool, table: bool, closures: bool, panic: bool,
    hostCall: bool, importMemory: bool)

  datatype Program = Program(
    decls: seq<Declared>, isMain: seq<bool>, reachable: seq<bool>, foreign: seq<Foreign>, needs: Needs)

  predicate Sized(p: Program) {
    |p.isMain| == |p.decls| == |p.reachable|
  }

  function One(b: bool): nat { if b then 1 else 0 }

  // ---- which entries there are ------------------------------------------------------------------------

  predicate Reached(p: Program, f: nat) {
    f < |p.reachable| && p.reachable[f]
  }

  predicate IsFnImport(p: Program, i: nat) {
    i < |p.foreign| && p.foreign[i].linkage.ImportFn? && Reached(p, p.foreign[i].target)
  }

  predicate IsGlobalImport(p: Program, i: nat) {
    && i < |p.foreign| && (p.foreign[i].linkage.ImportConst? || p.foreign[i].linkage.ImportVar?)
    && Reached(p, p.foreign[i].target)
  }

  predicate IsExport(p: Program, i: nat) {
    i < |p.foreign| && p.foreign[i].linkage.ExportFn? && Reached(p, p.foreign[i].target)
  }

  /** The function imports among the first `n` directives, in order. */
  function FnImports(p: Program, n: nat): seq<nat> {
    if n == 0 then [] else FnImports(p, n - 1) + if IsFnImport(p, n - 1) then [n - 1] else []
  }

  function GlobalImports(p: Program, n: nat): seq<nat> {
    if n == 0 then [] else GlobalImports(p, n - 1) + if IsGlobalImport(p, n - 1) then [n - 1] else []
  }

  /** The first of the first `n` directives that imports the function. */
  function FirstImport(p: Program, f: nat, n: nat): (r: Option<nat>)
    ensures r.Some? ==> r.value < n && IsFnImport(p, r.value) && p.foreign[r.value].target == f
    ensures r.None? ==> forall i: nat :: i < n && IsFnImport(p, i) ==> p.foreign[i].target != f
  {
    if n == 0 then None
    else if FirstImport(p, f, n - 1).Some? then FirstImport(p, f, n - 1)
    else if IsFnImport(p, n - 1) && p.foreign[n - 1].target == f then Some(n - 1)
    else None
  }

  /** The last of the first `n` directives that imports the function as a global. */
  function LastGlobal(p: Program, f: nat, n: nat): (r: Option<nat>)
    ensures r.Some? ==> r.value < n && IsGlobalImport(p, r.value) && p.foreign[r.value].target == f
  {
    if n == 0 then None
    else if IsGlobalImport(p, n - 1) && p.foreign[n - 1].target == f then Some(n - 1)
    else LastGlobal(p, f, n - 1)
  }

  function LastPanic(p: Program, n: nat): (r: Option<nat>)
    ensures r.Some? ==> r.value < n && IsFnImport(p, r.value) && p.foreign[r.value].panics
  {
    if n == 0 then None
    else if IsFnImport(p, n - 1) && p.foreign[n - 1].panics then Some(n - 1)
    else LastPanic(p, n - 1)
  }

  predicate Imported(p: Program, f: nat) {
    FirstImport(p, f, |p.foreign|).Some?
  }

  /** The functions with a body of their own, in order. */
  function Defined(p: Program, n: nat): seq<nat> {
    if n == 0 then [] else Defined(p, n - 1) + if Reached(p, n - 1) && !Imported(p, n - 1) then [n - 1] else []
  }

  /** An entry's place among its like is how many of them come before it. */
  lemma {:induction false} FnImportAt(p: Program, i: nat, n: nat)
    requires i < n && IsFnImport(p, i)
    ensures |FnImports(p, i)| < |FnImports(p, n)| && FnImports(p, n)[|FnImports(p, i)|] == i
    decreases n
  {
    if i + 1 < n {
      FnImportAt(p, i, n - 1);
    }
  }

  lemma {:induction false} GlobalImportAt(p: Program, i: nat, n: nat)
    requires i < n && IsGlobalImport(p, i)
    ensures |GlobalImports(p, i)| < |GlobalImports(p, n)| && GlobalImports(p, n)[|GlobalImports(p, i)|] == i
    decreases n
  {
    if i + 1 < n {
      GlobalImportAt(p, i, n - 1);
    }
  }

  lemma {:induction false} DefinedAt(p: Program, f: nat, n: nat)
    requires f < n && Reached(p, f) && !Imported(p, f)
    ensures |Defined(p, f)| < |Defined(p, n)| && Defined(p, n)[|Defined(p, f)|] == f
    decreases n
  {
    if f + 1 < n {
      DefinedAt(p, f, n - 1);
    }
  }

  // ---- the plan ----------------------------------------------------------------------------------------

  predicate HasThunk(p: Program) { p.needs.rootAllocator || p.needs.logger }

  predicate HasTable(p: Program) { HasThunk(p) || p.needs.table }

  predicate NeedsHeap(p: Program) { p.needs.heap || HasThunk(p) }

  predicate InRange(p: Program) {
    forall i :: 0 <= i < |p.foreign| ==> p.foreign[i].target < |p.decls|
  }

  /** Imported globals are 32-bit values. */
  predicate GlobalsOk(p: Program, n: nat) {
    forall i: nat :: i < n && IsGlobalImport(p, i) ==> IsWord(p, p.foreign[i].target)
  }

  predicate IsWord(p: Program, f: nat) {
    f < |p.decls| && p.decls[f].result == Some(I32)
  }

  /** Programs whose indices are planned; all others are refused with a diagnostic. */
  predicate Accepted(p: Program) {
    && InRange(p) && !p.needs.hostCall && GlobalsOk(p, |p.foreign|)
    && (p.needs.panic ==> LastPanic(p, |p.foreign|).Some?)
  }

  /** `None` stands for the index that is never given out. */
  class ImportLayout {
    var importFuncCount: nat
    var importGlobalCount: nat
    var definedFuncCount: nat
    var frameGlobalIndex: nat
    var heapGlobalIndex: nat
    var closureGlobalStartIndex: nat
    var closureGlobalCount: nat
    var allocatorIndirectTypeIndex: Option<nat>
    var loggerIndirectTypeIndex: Option<nat>
    var consoleLogTypeIndex: Option<nat>
    var rootAllocFuncIndex: Option<nat>
    var loggerFuncIndex: Option<nat>
    var consoleLogFuncIndex: Option<nat>
    var tableFuncCount: nat
    var rootAllocTableIndex: Option<nat>
    var loggerTableIndex: Option<nat>
    var platformPanicFuncIndex: Option<nat>
    const funcWasmIndices: array<Option<nat>>
    const globalImportIndices: array<Option<nat>>
    const importedFunctions: array<bool>

    constructor (funcLen: nat)
      ensures fresh(funcWasmIndices) && fresh(globalImportIndices) && fresh(importedFunctions)
      ensures SizedFor(funcLen) && Blank(funcLen)
    {
      funcWasmIndices := new Option<nat>[funcLen](i => None);
      globalImportIndices := new Option<nat>[funcLen](i => None);
      importedFunctions := new bool[funcLen](i => false);
      importFuncCount, importGlobalCount, definedFuncCount, closureGlobalCount, tableFuncCount := 0, 0, 0, 0, 0;
      consoleLogFuncIndex, platformPanicFuncIndex, allocatorIndirectTypeIndex := None, None, None;
      loggerIndirectTypeIndex, consoleLogTypeIndex, rootAllocFuncIndex := None, None, None;
      loggerFuncIndex, rootAllocTableIndex, loggerTableIndex := None, None, None;
    }

    ghost predicate SizedFor(n: nat)
    {
      && funcWasmIndices != globalImportIndices
      && funcWasmIndices.Length == globalImportIndices.Length == importedFunctions.Length == n
    }

    /** The first pass over the directives: which functions and globals come from outside. */
    method MarkImports(p: Program) returns (ok: bool, panic: bool)
      requires Sized(p) && SizedFor(|p.decls|) && importGlobalCount == 0
      requires forall f :: 0 <= f < |p.decls| ==> globalImportIndices[f] == None && !importedFunctions[f]
      modifies this`importGlobalCount, globalImportIndices, importedFunctions
      ensures ok <==> InRange(p) && GlobalsOk(p, |p.foreign|)
      ensures ok ==> forall f :: 0 <= f < |p.decls| ==> importedFunctions[f] == Imported(p, f)
      ensures ok ==> forall f :: 0 <= f < |p.decls| ==> globalImportIndices[f] == GlobalIndex(p, f, |p.foreign|)
      ensures ok ==> importGlobalCount == |GlobalImports(p, |p.foreign|)|
      ensures ok ==> panic == LastPanic(p, |p.foreign|).Some?
    {
      ok, panic := true, false;
      var i := 0;
      while i < |p.foreign|
        invariant 0 <= i <= |p.foreign| && ok
        invariant forall j :: 0 <= j < i ==> p.foreign[j].target < |p.decls|
        invariant GlobalsOk(p, i) && importGlobalCount == |GlobalImports(p, i)| && panic == LastPanic(p, i).Some?
        invariant forall f :: 0 <= f < |p.decls| ==> importedFunctions[f] == FirstImport(p, f, i).Some?
        invariant forall f :: 0 <= f < |p.decls| ==> globalImportIndices[f] == GlobalIndex(p, f, i)
      {
        var entry := p.foreign[i];
        if entry.target >= |p.decls| {
          return false, panic;
        }
        if entry.linkage.ImportFn? && p.reachable[entry.target] {
          importedFunctions[entry.target] := true;
          if entry.panics {
            panic := true;
          }
        } else if entry.linkage.ImportConst? || entry.linkage.ImportVar? {
          if p.reachable[entry.target] {
            if p.decls[entry.target].result != Some(I32) {
              assert IsGlobalImport(p, i);
              return false, panic;
            }
            globalImportIndices[entry.target] := Some(importGlobalCount);
            importGlobalCount := importGlobalCount + 1;
          }
        }
        i := i + 1;
      }
    }

    /** The second pass: function imports are numbered in the order of their directives. */
    method NumberImports(p: Program)
      requires Sized(p) && SizedFor(|p.decls|) && InRange(p) && importFuncCount == 0 && platformPanicFuncIndex == None
      requires forall f :: 0 <= f < |p.decls| ==> funcWasmIndices[f] == None && importedFunctions[f] == Imported(p, f)
      modifies this`importFuncCount, this`platformPanicFuncIndex, funcWasmIndices
      ensures importFuncCount == |FnImports(p, |p.foreign|)|
      ensures forall f :: 0 <= f < |p.decls| ==> funcWasmIndices[f] == ImportIndex(p, f, |p.foreign|)
      ensures platformPanicFuncIndex == PanicIndex(p, |p.foreign|)
    {
      var i := 0;
      while i < |p.foreign|
        invariant 0 <= i <= |p.foreign| && importFuncCount == |FnImports(p, i)|
        invariant forall f :: 0 <= f < |p.decls| ==> funcWasmIndices[f] == ImportIndex(p, f, i)
        invariant platformPanicFuncIndex == PanicIndex(p, i)
      {
        var entry := p.foreign[i];
        if entry.linkage.ImportFn? && p.reachable[entry.target] {
          assert IsFnImport(p, i);
          if importedFunctions[entry.target] && funcWasmIndices[entry.target] == None {
            funcWasmIndices[entry.target] := Some(importFuncCount);
          }
          if entry.panics {
            platformPanicFuncIndex := Some(importFuncCount);
          }
          importFuncCount := importFuncCount + 1;
        }
        i := i + 1;
      }
    }

    /** Reachable functions with bodies are numbered after all imports. */
    method NumberDefined(p: Program)
      requires Sized(p) && SizedFor(|p.decls|) && definedFuncCount == 0
      requires forall f :: 0 <= f < |p.decls| ==> importedFunctions[f] == Imported(p, f)
      requires forall f :: 0 <= f < |p.decls| ==> funcWasmIndices[f] == ImportIndex(p, f, |p.foreign|)
      modifies this`definedFuncCount, funcWasmIndices
      ensures definedFuncCount == |Defined(p, |p.decls|)|
      ensures forall f :: 0 <= f < |p.decls| ==> funcWasmIndices[f] == FunctionIndex(p, f, importFuncCount)
    {
      var f := 0;
      while f < |p.decls|
        invariant 0 <= f <= |p.decls| && definedFuncCount == |Defined(p, f)|
        invariant forall g :: f <= g < |p.decls| ==> funcWasmIndices[g] == ImportIndex(p, g, |p.foreign|)
        invariant forall g :: 0 <= g < f ==> funcWasmIndices[g] == FunctionIndex(p, g, importFuncCount)
      {
        if p.reachable[f] && !importedFunctions[f] {
          funcWasmIndices[f] := Some(importFuncCount + definedFuncCount);
          definedFuncCount := definedFuncCount + 1;
        }
        f := f + 1;
      }
    }

    /** Imports and defined functions; refuses what cannot be imported, and a missing panic function. */
    method NumberFunctions(p: Program) returns (ok: bool)
      requires Sized(p) && SizedFor(|p.decls|) && Blank(|p.decls|) && !p.needs.hostCall
      modifies this`importFuncCount, this`importGlobalCount, this`definedFuncCount, this`platformPanicFuncIndex,
               this`consoleLogFuncIndex, funcWasmIndices, globalImportIndices, importedFunctions
      ensures ok <==> Accepted(p)
      ensures ok ==> FunctionsPlanned(p)
    {
      var marked, panic := MarkImports(p);
      if !marked {
        return false;
      }
      NumberImports(p);
      if p.needs.logger {
        consoleLogFuncIndex := Some(importFuncCount);
        importFuncCount := importFuncCount + 1;
      }
      NumberDefined(p);
      ok := !p.needs.panic || panic;
    }

    /** Globals of the module's own come after the imported ones. */
    method PlanGlobals(p: Program)
      modifies this`frameGlobalIndex, this`heapGlobalIndex, this`closureGlobalStartIndex, this`closureGlobalCount
      ensures GlobalsPlanned(p)
    {
      frameGlobalIndex := importGlobalCount;
      heapGlobalIndex := importGlobalCount + One(p.needs.frame);
      closureGlobalStartIndex := heapGlobalIndex + One(NeedsHeap(p));
      closureGlobalCount := if p.needs.closures then |p.decls| else 0;
    }

    /** The table, the types of what is called through it, and the functions that only it reaches. */
    method PlanTable(p: Program)
      requires SizedFor(|p.decls|) && rootAllocFuncIndex == loggerFuncIndex == None
      modifies this`allocatorIndirectTypeIndex, this`loggerIndirectTypeIndex, this`consoleLogTypeIndex,
        this`tableFuncCount,
               this`rootAllocTableIndex, this`rootAllocFuncIndex, this`loggerTableIndex, this`loggerFuncIndex
      ensures TablePlanned(p)
    {
      var funcLen := |p.decls|;
      if HasTable(p) {
        allocatorIndirectTypeIndex := Some(funcLen);
        loggerIndirectTypeIndex := Some(funcLen + 1);
        consoleLogTypeIndex := Some(funcLen + 1 + One(p.needs.logger));
        tableFuncCount := funcLen + One(HasThunk(p)) + One(p.needs.logger);
        if HasThunk(p) {
          rootAllocTableIndex := Some(funcLen);
          rootAllocFuncIndex := Some(importFuncCount + definedFuncCount);
        }
        if p.needs.logger {
          loggerTableIndex := Some(funcLen + One(HasThunk(p)));
          loggerFuncIndex := Some(importFuncCount + definedFuncCount + One(HasThunk(p)));
        }
      }
    }

    /** Exactly the accepted programs are planned. */
    method Analyze(p: Program) returns (ok: bool)
      requires Sized(p) && SizedFor(|p.decls|) && Blank(|p.decls|)
      modifies this, funcWasmIndices, globalImportIndices, importedFunctions
      ensures ok <==> Accepted(p)
      ensures ok ==> Planned(p)
    {
      hide FnImports, GlobalImports, Defined, LastPanic, LastGlobal, FirstImport, InRange, GlobalsOk;
      if p.needs.hostCall {
        return false;
      }
      ok := NumberFunctions(p);
      if ok {
        PlanGlobals(p);
        PlanTable(p);
      }
    }

    ghost predicate Blank(n: nat)
      requires SizedFor(n)
      reads this, funcWasmIndices, globalImportIndices, importedFunctions
    {
      && (forall f :: 0 <= f < n ==>
        funcWasmIndices[f] == None && globalImportIndices[f] == None && !importedFunctions[f])
      && importFuncCount == importGlobalCount == definedFuncCount == 0
      && consoleLogFuncIndex == platformPanicFuncIndex == rootAllocFuncIndex == loggerFuncIndex == None
    }

    ghost predicate FunctionsPlanned(p: Program)
      requires SizedFor(|p.decls|)
      reads this, funcWasmIndices, globalImportIndices, importedFunctions
    {
      && importFuncCount == ImportCount(p)
      && importGlobalCount == |GlobalImports(p, |p.foreign|)|
      && definedFuncCount == |Defined(p, |p.decls|)|
      && (forall f :: 0 <= f < |p.decls| ==> importedFunctions[f] == Imported(p, f))
      && (forall f :: 0 <= f < |p.decls| ==> funcWasmIndices[f] == FunctionIndex(p, f, ImportCount(p)))
      && (forall f :: 0 <= f < |p.decls| ==> globalImportIndices[f] == GlobalIndex(p, f, |p.foreign|))
      && platformPanicFuncIndex == PanicIndex(p, |p.foreign|)
      && consoleLogFuncIndex == if p.needs.logger then Some(|FnImports(p, |p.foreign|)|) else None
    }

    ghost predicate GlobalsPlanned(p: Program)
      reads this
    {
      && frameGlobalIndex == importGlobalCount
      && heapGlobalIndex == importGlobalCount + One(p.needs.frame)
      && closureGlobalStartIndex == heapGlobalIndex + One(NeedsHeap(p))
      && closureGlobalCount == if p.needs.closures then |p.decls| else 0
    }

    ghost predicate TablePlanned(p: Program)
      reads this
    {
      && (HasTable(p) ==>
            && allocatorIndirectTypeIndex == Some(|p.decls|) && loggerIndirectTypeIndex == Some(|p.decls| + 1)
            && consoleLogTypeIndex == Some(|p.decls| + 1 + One(p.needs.logger))
            && tableFuncCount == |p.decls| + One(HasThunk(p)) + One(p.needs.logger))
      && (HasThunk(p) ==> rootAllocTableIndex == Some(|p.decls|))
      && rootAllocFuncIndex == (if HasThunk(p) then Some(importFuncCount + definedFuncCount) else None)
      && (p.needs.logger ==> loggerTableIndex == Some(|p.decls| + 1))
      && loggerFuncIndex == if p.needs.logger then Some(importFuncCount + definedFuncCount + 1) else None
    }

    /** What a planned layout holds. */
    ghost predicate Planned(p: Program)
      requires SizedFor(|p.decls|)
      reads this, funcWasmIndices, globalImportIndices, importedFunctions
    {
      FunctionsPlanned(p) && GlobalsPlanned(p) && TablePlanned(p)
    }
  }

  // ---- what the fields count -----------------------------------------------------------------------------

  function GlobalIndex(p: Program, f: nat, n: nat): Option<nat> {
    match LastGlobal(p, f, n)
    case None => None
    case Some(i) => Some(|GlobalImports(p, i)|)
  }

  function ImportIndex(p: Program, f: nat, n: nat): Option<nat> {
    match FirstImport(p, f, n)
    case None => None
    case Some(i) => Some(|FnImports(p, i)|)
  }

  function PanicIndex(p: Program, n: nat): Option<nat> {
    match LastPanic(p, n)
    case None => None
    case Some(i) => Some(|FnImports(p, i)|)
  }

  /** Imported functions, and the console's. */
  function ImportCount(p: Program): nat {
    |FnImports(p, |p.foreign|)| + One(p.needs.logger)
  }

  /** The index of a function: of its first import, or after all `imports` imports. */
  function FunctionIndex(p: Program, f: nat, imports: nat): Option<nat> {
    if Imported(p, f) then ImportIndex(p, f, |p.foreign|)
    else if Reached(p, f) then Some(imports + |Defined(p, f)|)
    else None
  }
}
