# Verified models of the HopHop compiler's backend and build

HopHop compiles its source to MIR, a flat list of instructions per function with jumps to program
counters, and writes WebAssembly modules from it directly. This project models that backend, the
const evaluator that runs the same MIR at compile time, and three smaller parts of the tool chain,
and proves properties of the models in Dafny 4.11. `dafny verify dfyconfig.toml` checks all of it.

**The structuring pass.** `Mir` is a flat machine on 32-bit integers, 64-bit integers and string
references; `Wasm` is a structured WebAssembly machine with locals, globals, linear memory, blocks,
loops and branches. `Emitter` is the pass from one to the other, with and without a frame in linear
memory; `RangeMethods`, `EmitterMethods` and `FunctionBodies` are the same pass as it is written, on a
growing byte buffer and a stack of operand kinds, proved to write exactly the encoding of what
`Emitter` gives. A stack map (`StackMap`) says which functions can be structured; every condition in
it can be checked in one pass over the instructions. `Tracking`, `Simulation` and `Compiler` show that
what is emitted for such a function means what the function means; `Validation`, `ValidEmission`,
`Soundness` and `ValidBodies` that it validates and never gets stuck; `FrameKeeping`, `FrameEmission`
and `FrameDiscipline` that it gives its frame back, alone and in whole programs with recursion.

**What is emitted at all.** `Structured` lowers operators, `if`, loops, `break` and `continue` to flat
code; `Typing` and `LoweredMaps` show that typed code then always has a stack map. `Statements` says of
the structured code alone whether it fits: among other things, where in the body of a loop ways meet.
`Completeness` proves that a function is emitted if and only if its code fits; `Jumps`, `Recognition`,
`Expressions`, `LoopShapes`, `Placement`, `LoopCuts` and `OpenLoops` are the steps, `StructuredBodies` the
bytes, and `Refusals` small functions of every kind.

**The const evaluator.** `Executor` is the interpreter of the same MIR on dynamically typed values:
64-bit integers that refuse to overflow, truth values, byte strings, null. `Evaluation` says when it
and the emitted code agree: exactly, operator by operator, and over whole runs.

**Planning.** `Signatures`, `IndexSpaces`, `ModuleSections` and `NamedIndices` plan type, function,
global and table indices and write the sections that give them their meaning. `FrameLayout` plans the
cells of a frame (`PlannedFrames`: as emission needs them), `Aggregates` and `FieldAddress` the fields of
aggregates, `Reachability` decides which functions are emitted, and `RootAllocator` is the bump allocator
whose instructions `RootThunk` runs. `Linking` puts the two halves together: calls are written by planned
index, and reach the import or body of the function that was called; `TypedBodies`: a body is written for
the type that its function is declared with.

**Encodings.** `Leb`, `Binary` and `Framing` are the integers, instructions, local declarations and
sections of the binary format, with decoders that undo them.

**Outside the backend.** `TopoOrder`, `BuildCache` and `CachedBuild` are the package build with its
cache, `FmtParse` the format-string tokenizer, `LineDiff` the formatter's line diff.

`Examples` carries one function, a loop with a condition of two operands, from its stack map to its code.

## Findings

Each of these is a place where the source does not do what its own definition of the language, or its
own interpreter, says. The model keeps the code as it is; the named member gives the input and the
exact condition under which the code is right.

- Wide constants: `PUSH_CONST` of an integer writes `(int32_t)bits` (src/codegen_wasm.c:4772-4779) where
  the interpreter keeps 64 bits (src/mir_exec.c:233-237). `return 4294967296 as i64` gives 0 in emitted
  code. Right if and only if the constant is a 32-bit number: `Findings.ConstantsExact`,
  `Findings.WideConstantLost`.
- 64-bit order: the opcodes emitted for `<`, `>`, `<=` and `>=` on 64-bit integers are each one place too
  far in the opcode table (src/codegen_wasm.c:3971-3995). `1 < 2` gives 0. Right only for `<` and `<=` on equal
  operands; a function with `>=` does not validate, 0x5b being a floating-point comparison:
  `Findings.OrderExact`, `Findings.OneNotBelowTwo`, `Findings.GreaterEqualInvalid`.
- Control flow that is refused, with a diagnostic, although its loops are reducible (docs/HEP-032-wasm-backend.md:87-89):
  `||` whose right operand holds an operator (src/codegen_wasm.c:4343-4363), as in `if a || a && b { return }`; an `if`
  or a loop with nothing in it, or an `else`; a loop whose last meeting place is inside a statement
  (src/codegen_wasm.c:3880-3892), as in `for a { if a && b { return } }`, or has a `continue` to the condition in front
  of it; an endless loop that holds another loop, or an `if` of more than one instruction that ends in `continue`
  (src/codegen_wasm.c:3915-3930, 3869-3879), except that an endless loop may begin with another one: the two are read
  as one, and a `break` of the inner must then end an `if` of its body. Emitted if and only if the code fits, as
  `Statements.Fits` says it: `Completeness.EmittedExactly`, with inputs in `Refusals`.
- String equality without a frame: the four scratch locals are all local 0 (src/codegen_wasm.c:5052-5083), so all
  strings are equal and local 0 is overwritten. Right if and only if the contents are equal and local 0 already held
  the left pointer: `StringFindings.FramelessComparisonExact`, `StringFindings.DifferentStringsFoundEqual`.
- String equality with a frame: pointers and lengths are compared where the language compares contents
  (docs/language.md:472, src/mir_exec.c:2169-2177). Right if and only if the strings are the same piece of memory or
  differ in content: `StringFindings.EmittedComparisonExact`, `StringFindings.EqualStringsFoundUnequal`.
- Casts to `bool` are no code (src/codegen_wasm.c:5108-5126), so `(2 as bool) == true` is false in emitted code.
  Right if and only if the operand is 0 or 1: `Findings.TruthExact`, `Findings.TwoNotTrue`.
- Unsigned order: 32-bit operands are compared as signed numbers whatever their type (src/codegen_wasm.c:3945-3969).
  1 is not below 2 to the 31st. Right if and only if both or neither operand is 2 to the 31st or more:
  `Findings.UnsignedOrderExact`, `Findings.UnsignedOrderWrong`.
- Overflow: the interpreter refuses 64-bit overflow and computes 32-bit values in 64 bits; emitted code wraps. They
  agree if and only if each 32-bit result fits in 32 bits: `Evaluation.BinaryExact`, `Evaluation.FollowedExactly`;
  2147483647 + 1 is an input on which they part: `Findings.OverflowParts`.
- A function that is left by running off its end keeps its frame, unless the frame is empty:
  `FrameDiscipline.FallingOffKeepsTheFrame`, `FrameDiscipline.OpenEndedKeepsItsFrame`. Only MIR without a final return
  gets there: lowering appends one to every function body (src/mir_lower_stmt.c:5232-5239), and functions that end in
  one never run off their end.
- The function table is filled with an index that names nothing exactly when there are functions, none is reachable,
  and neither allocator nor logger stands in (src/codegen_wasm.c:9417-9436): `NamedIndices.TableFilledExactly`,
  `NamedIndices.TableEntryNamesNothing`.
- What has a size of three is given an alignment of three, which rounding by a bit mask does not respect
  (src/codegen_wasm.c:3294-3312): behind one byte it is at offset 1. A field is at a multiple of its alignment behind
  all other fields if and only if that alignment is not three: `Aggregates.FieldsAlignedExactly`,
  `Aggregates.ThreeIsNoAlignment`. Nor is the size of an aggregate then a multiple of three, but for four of twelve
  ends: `Aggregates.SizeAtThree`, `Aggregates.ThreeInArrays`.
- What holds fields is aligned to four bytes at most, whatever it holds (src/codegen_wasm.c:3294-3312): behind four
  bytes, the 64-bit integer of an aggregate is at offset 4. A field of an aggregate that is itself a field is always at
  a multiple of its alignment if and only if that is neither eight nor three: `Aggregates.InsideAlignedExactly`,
  `Aggregates.WideInside`.
- An edit whose time stamp is not later than its object's is missed (src/hop_codegen.c:706-750): the object counts as up
  to date, and so does that of every package that imports it, if and only if the edit is stamped no later than the
  object and what the package now imports has no newer object; the stale objects are those of the packages that reach
  it. `BuildCache.EditNoticedExactly`, `CachedBuild.MissedEditExactly`; `BuildCache.SameTickIsStale` is an input.
- A request to the root allocator whose block would end past 4 GiB is answered all the same: nothing is cleared, and
  the heap pointer falls back below the block (src/codegen_wasm.c:8770-8819). An answered block lies in memory if and
  only if its end does not wrap: `RootThunk.AnsweredExactly`, `RootThunk.WrappingRequestServed`.

## Model

| member | source | states |
|---|---|---|
| Tracking.RangeTracks | src/codegen_wasm.c:4560-4763 | after any range that is emitted for a function with a stack map, the operand kinds the emitter tracks are the stack map's at the end of the range |
| Straightline.Opcode32Correct | src/codegen_wasm.c:3945-3969 | every 32-bit opcode computes the operator it is emitted for, or traps exactly where the operator is undefined |
| Straightline.Opcode64Correct | src/codegen_wasm.c:3971-3995 | the 64-bit opcodes of arithmetic and equality do |
| Straightline.Ordering64 | src/codegen_wasm.c:3971-3995 | the 64-bit order opcodes compute their operator exactly on equal operands of `<` and `<=` |
| Straightline.ArgPopsCorrect | src/codegen_wasm.c:7637-7741 | popping call arguments of the three kinds right to left parks each in scratch locals of its own, a signed 32-bit one widened where the parameter is wider, and changes no other local |
| Straightline.ReloadCorrect | src/codegen_wasm.c:7742-7757 | reloading pushes the arguments left to right, each with its own value and width |
| InstSim.SimpleSim | src/codegen_wasm.c:4766-5170 | an instruction that falls through and the code emitted for it end in matching states, or both trap after the same calls |
| FrameSim.FallSim | src/codegen_wasm.c:5317-5740 | the same for locals of the three kinds that live in frame memory |
| FrameEntry.PrologueCorrect | src/codegen_wasm.c:8590-8652 | after the prologue the frame is taken and every parameter is in its slot, whatever the frame held before |
| Simulation.RangeSim | src/codegen_wasm.c:4560-4763 | running the code of a range and running its instructions give matching outcomes: fall-through, a branch to the label that stands for the next program counter, return, trap, or the same budget used up |
| Simulation.WhileLoopSim | src/codegen_wasm.c:4597-4712 | a loop with a leading test, its body, and its `continue` tail do, for any number of turns |
| Simulation.ForeverLoopSim | src/codegen_wasm.c:4715-4763 | an unconditional loop does |
| Simulation.OrSim | src/codegen_wasm.c:4320-4403 | a chain of `or` operands of any length evaluates the operands flat execution evaluates and leaves the same truth value |
| Simulation.AndSim | src/codegen_wasm.c:4243-4318 | a chain of `and` operands of any length does |
| Compiler.StructuringPreservesMeaning | src/codegen_wasm.c:8481-8677 | for all arguments, callees and budgets, a well-formed function and its emitted body end alike: same result, trap, or exhaustion after the same calls; a missing result is a trap |
| Compiler.RunsArePreserved | src/codegen_wasm.c:8481-8677 | a flat run that ends within n steps is what the emitted code does under every budget of at least n |
| Compiler.EmittedRunsAreReal | src/codegen_wasm.c:8481-8677 | emitted code that ends does what some number of flat steps do |
| Compiler.SameTermination | src/codegen_wasm.c:4560-4763 | the flat run ends if and only if the emitted code ends |
| Evaluation.BinaryExact | src/mir_exec.c:2382-2520 | a binary operator that the interpreter computes is computed alike by the flat machine if and only if its result fits the operands' width and null is not compared with a zero |
| Evaluation.UnaryExact | src/mir_exec.c:2263-2292 | a unary operator is, if and only if its result fits |
| Evaluation.CastExact | src/mir_exec.c:2690-2764 | a cast is, if and only if its result fits and a cast to `bool` is of a truth value |
| Evaluation.ConstantExact | src/codegen_wasm.c:4772-4779 | an integer constant is emitted as its low 32 bits, which stand for it if and only if it fits in them, which is when it has a stack map |
| Evaluation.FollowedExactly | src/mir_exec.c:1247-1280 | from related states, an operator or cast that the interpreter computes leads to related states if and only if it is faithful |
| Evaluation.EvaluationIsPreserved | src/mir_exec.c:372-1996 | if every step is faithful, what evaluating a function finds is what running its emitted code gives, for all arguments and callees: result, failed assertion or division, calls in order |
| Findings.ConstantsExact | src/codegen_wasm.c:4772-4779 | `return c as i64` returns c from emitted code if and only if c fits in 32 bits, which is when it is well-formed; the interpreter always returns c |
| Findings.WideConstantLost | src/mir_exec.c:233-237 | for c = 2 to the 32nd the interpreter returns c and the emitted code 0 |
| Findings.TruthExact | src/codegen_wasm.c:5096-5126 | `return (x as bool) == true` is right in emitted code if and only if x is 0 or 1 |
| Findings.TwoNotTrue | src/codegen_wasm.c:5096-5126 | for 2 the interpreter returns true and the emitted code 0 |
| Findings.OrderExact | src/codegen_wasm.c:3971-3995 | the whole function that compares two 64-bit parameters is right if and only if they are equal and the operator is `<` or `<=` |
| Findings.OneNotBelowTwo | src/codegen_wasm.c:3971-3995 | for 1 and 2 the interpreter finds `<` true and the emitted code returns 0 |
| Findings.GreaterEqualInvalid | src/codegen_wasm.c:3971-3995 | the function that compares with `>=` does not validate in any context |
| Findings.UnsignedOrderExact | src/codegen_wasm.c:3945-3969 | the 32-bit order opcodes order unsigned operands if and only if both or neither are 2 to the 31st or more |
| Findings.UnsignedOrderWrong | src/codegen_wasm.c:3945-3969 | 1 and 2 to the 31st are compared wrongly |
| Findings.OverflowParts | src/mir_exec.c:2382-2520 | the largest 32-bit number plus one is a number in the interpreter and wraps in emitted code; the largest 64-bit number plus one is refused and wraps |
| StringFindings.EmittedComparisonExact | src/codegen_wasm.c:5052-5083 | the code for `==` or `!=` in a function with a frame compares contents if and only if the strings are the same piece of memory or differ |
| StringFindings.FramelessComparisonExact | src/codegen_wasm.c:5052-5083 | with local 0 as every scratch local, it is, and keeps the locals, if and only if the contents are equal and local 0 held the left pointer |
| StringFindings.EqualStringsFoundUnequal | src/mir_exec.c:2169-2177 | two equal strings at different addresses are found unequal |
| StringFindings.DifferentStringsFoundEqual | src/codegen_wasm.c:5052-5083 | two different strings are found equal and local 0 is overwritten |
| Validation.CheckConcat | src/codegen_wasm.c:4560-4763 | checking code piece by piece is checking it whole |
| ValidEmission.RangeTurns | src/codegen_wasm.c:4560-4763 | the code of a range turns operands of the types at its start into those at its end, under any label context that has its branch targets |
| ValidEmission.EmittedFunctionValidates | src/codegen_wasm.c:8481-8677 | the emitted body of a well-formed function that ends in a return, or whose end holds exactly its results, validates |
| Soundness.ValidBodyIsSafe | src/codegen_wasm.c:8481-8677 | code that validates never gets stuck and leaves values of its result types, whatever its callees do |
| ValidBodies.DeclaredSuits | src/codegen_wasm.c:8525-8589 | the parameters and the locals that a body declares are a context in which its code can be checked |
| ValidBodies.WrittenBodyValidates | src/codegen_wasm.c:8481-8677 | the bytes of a function body parse into locals and code such that the code validates against the locals |
| ValidBodies.WrittenBodyIsSafe | src/codegen_wasm.c:8481-8677 | so a written body never gets stuck on arguments of its declared types |
| FrameEmission.RangeKeeps | src/codegen_wasm.c:3777-3817 | emitted code works on its own frame only, calls with the frame pointer at the end of that frame, and gives the frame back before it returns |
| FrameDiscipline.BodyKeepsFrames | src/codegen_wasm.c:8590-8600 | if callees put the frame pointer back, so does every return of an emitted function, with all frames below untouched |
| FrameDiscipline.FallingOffKeepsTheFrame | src/codegen_wasm.c:8651-8677 | a function left by its end has given its frame back if and only if the frame is empty |
| FrameDiscipline.OpenEndedKeepsItsFrame | src/codegen_wasm.c:8651-8677 | a function of no instructions with 16 bytes of frame leaves the frame pointer 16 higher |
| FrameDiscipline.ProgramKeepsFrames | src/codegen_wasm.c:8349-8427 | in whole programs, recursion included, every call puts the frame pointer back and keeps all frames below it, while frames fit in 4 GiB |
| FrameDiscipline.FramesLieEndToEnd | src/codegen_wasm.c:8590-8600 | requiring of every call that its frame begins where its caller's ends changes no run: live frames never overlap |
| FrameDiscipline.CallsNeverStuck | src/codegen_wasm.c:8525-8589 | in whole programs a call on arguments of its kinds, with zeros of the declared types in the other locals, is never stuck, at any depth |
| EmitterMethods.EmitState.constructor | src/codegen_wasm.c:2422-2444 | a new emitter state tracks no operands, and has the place of every local and of the scratch locals that the code refers to |
| RangeMethods.EmitFunctionRange | src/codegen_wasm.c:4560-8445 | the loop over a range appends exactly the encoding of the specified code, or stops with the specified error, or with a buffer overflow: only when the code exceeds the limit, and always when it exceeds the ceiling to which buffers grow; the progress limit is never reached |
| Jumps.RangeJumps | src/codegen_wasm.c:4560-4763 | in a range that is emitted, every jump stays in the range or goes to a label that is there, and conditional jumps go forward and stay in it, whatever the function |
| Recognition.FallEmitted | src/codegen_wasm.c:4766-5170 | an instruction that has operand kinds after it is emitted if and only if there are fewer than 256 operands to push on, no more than 32 arguments of a call, scratch locals for them, and a slot for a local that lives in a frame |
| Recognition.KindExactly | src/codegen_wasm.c:3850-3943 | a loop with a condition is recognised if and only if some conditional jump leaves it, at the first one; an endless loop if and only if none does and some jump back closes it, at the last one |
| Recognition.EndlessRecognised | src/codegen_wasm.c:3899-3943 | an endless loop is recognised if its jumps go to its header, to the place behind it, or forward inside |
| LoweredMaps.LoweredIsWellFormed | src/mir_lower_stmt.c:4208-4465 | typed structured code has a stack map once lowered, with no operands pending between statements |
| Expressions.TermsEmitted | src/codegen_wasm.c:4243-4558 | the code of an expression is emitted, whatever follows it, if and only if no logical or in it has a logical operator in its right operand |
| Completeness.CodeEmitted | src/codegen_wasm.c:4560-4763 | structured code is emitted, whatever surrounds and follows it, if it fits, and is refused if it does not |
| Completeness.EmittedExactly | src/codegen_wasm.c:8481-8677 | a function lowered from typed structured code, within the limits, is emitted if and only if the code fits |
| StructuredBodies.WrittenExactly | src/codegen_wasm.c:8481-8677 | its body is written if and only if the code fits |
| StructuredBodies.WrittenCodeRuns | src/codegen_wasm.c:8481-8677 | what is written for code that fits parses and runs as the flat code does, for all arguments, callees and budgets |
| Refusals.BreakingEmitted | src/codegen_wasm.c:3918-3924 | `for { if a { break } }` is emitted |
| Refusals.ContinuingEmitted | tests/wasm_backend_loop_uncond_continue_ok.hop:2-12 | an endless loop with `continue` and `break` is emitted |
| Refusals.SteppingEmitted | tests/wasm_backend_continue_ok.hop:2-12 | a loop with a step and a `continue` is emitted |
| Refusals.EmptyThenRefused | src/codegen_wasm.c:8231-8237 | `if a { }` is refused |
| Refusals.EmptyElseRefused | src/codegen_wasm.c:8245-8267 | `if a { return } else { }` is refused |
| Refusals.EmptyLoopRefused | src/codegen_wasm.c:3873-3875 | `for a { }` is refused |
| Refusals.LoopInEndlessRefused | src/codegen_wasm.c:3918-3924 | an endless loop with another loop behind a statement is refused |
| Refusals.ContinueInIfRefused | src/codegen_wasm.c:3869-3879 | an endless loop with `if a { a = b; continue }` is refused |
| Refusals.OperatorInLoopRefused | src/codegen_wasm.c:3880-3892 | `for a { if a && b { return } }` is refused |
| Refusals.OperatorBehindOrRefused | src/codegen_wasm.c:4343-4363 | an `if` whose condition is `a` or else both `a` and `b` is refused |
| Refusals.EarlyContinueRefused | src/codegen_wasm.c:4640-4645 | a loop with a `continue` to its condition in front of an `if` with `else` is refused |
| Refusals.EndlessInEndless | src/codegen_wasm.c:3899-3943 | `for { for { if a { break } }; return }` is emitted: an endless loop that begins with another is read as one with it |
| Refusals.StrayBreakRefused | src/codegen_wasm.c:8333-8348 | `for { for { if a { break } else { a = b } }; return }` is refused: there is no label for that `break` |
| RangeMethods.EmitConditional | src/codegen_wasm.c:8197-8332 | a conditional branch writes its `or`, `and`, `if` or `if`/`else` form |
| FunctionBodies.EmitFunctionBody | src/codegen_wasm.c:8481-8677 | writes declarations, prologue, code and end: exactly the specified bytes; too large only past the limit, and always past the ceiling |
| FunctionBodies.BytesParse | src/codegen_wasm.c:8481-8677 | the bytes parse back into the declared locals and the emitted code, with nothing left over |
| FunctionBodies.BytesPreserveMeaning | src/codegen_wasm.c:8481-8677 | running what the bytes parse into ends as the flat function does |
| Buffers.Buffer.AppendBytes | src/codegen_wasm.c:580-590 | appends the bytes, or nothing when the limit does not allow it |
| Buffers.Buffer.Reserve | src/codegen_wasm.c:520-570 | there is room if and only if it is within 32 bits and within the limit or the present array; arrays only double on the way to the limit |
| Leb.UlebRoundTrip | src/codegen_wasm.c:592-604 | an unsigned integer is decoded back from any suffix |
| Leb.UlebShortest | src/codegen_wasm.c:592-604 | no shorter byte sequence decodes to it |
| Leb.SlebRoundTrip | src/codegen_wasm.c:606-638 | a signed integer is decoded back from any suffix |
| Leb.SlebShortest | src/codegen_wasm.c:606-638 | no shorter byte sequence decodes to it |
| Leb.LebIsFaithful | src/codegen_wasm.c:592-638 | 32-bit integers take at most 5 bytes and 64-bit ones at most 10 |
| Binary.CodeRoundTrip | src/codegen_wasm.c:4560-8445 | encoded code is decoded back, nested blocks included |
| Binary.EncodingIsInjective | src/codegen_wasm.c:4560-8445 | different code has different bytes |
| Framing.GroupsExpandBack | src/codegen_wasm.c:8447-8479 | run-length local declarations expand to the original list of types |
| Framing.DeclsRoundTrip | src/codegen_wasm.c:8447-8479 | written declarations parse back to the list of types |
| Framing.AppendLocalDecls | src/codegen_wasm.c:8447-8479 | the two loops write exactly the announced number of groups |
| Framing.SectionsRoundTrip | src/codegen_wasm.c:660-667 | a sequence of framed sections parses back |
| Framing.AppendSection | src/codegen_wasm.c:660-668 | appends exactly the section of that number and content |
| Signatures.BuildFunctionSignatures | src/codegen_wasm.c:2295-2420 | fails if and only if a reachable function is not supported; otherwise every signature has its function's declared types, the result address last where there is one, and names an entry that has them |
| Signatures.DeclaredTypeAt | src/codegen_wasm.c:2368-2405 | in a declared type the slots of parameter j stand behind those of the parameters before it, with its types in order, and the address of a result in memory behind them all |
| TypedBodies.BodyHasDeclaredType | src/codegen_wasm.c:9109-9123 | what a function's index names in the module has a type whose parameters and results are those that the function's written body validates for |
| Signatures.ShareType | src/codegen_wasm.c:2412-2417 | sharing entries between signatures of the same shape keeps every type index right |
| Signatures.RedirectAllocators | src/codegen_wasm.c:9082-9089 | exactly the signatures of the allocator's types are redirected to its entry |
| IndexSpaces.ImportLayout.MarkImports | src/codegen_wasm.c:1647-1689 | accepts exactly the programs whose directives are in range and import 32-bit globals only; a global's index is that of its last directive |
| IndexSpaces.ImportLayout.NumberImports | src/codegen_wasm.c:1690-1712 | an imported function's index is that of its first directive |
| IndexSpaces.ImportLayout.NumberDefined | src/codegen_wasm.c:1716-1723 | reachable functions with bodies are numbered after all imports |
| IndexSpaces.ImportLayout.Analyze | src/codegen_wasm.c:1538-1763 | plans exactly the accepted programs |
| ModuleSections.PlanEntry | src/codegen_wasm.c:1973-2031 | plans a wrapper exactly for a first `main` whose result is neither missing nor a 32-bit integer |
| ModuleSections.WriteModule | src/codegen_wasm.c:9101-9560 | the section loops write the module that the program and its signatures determine |
| NamedIndices.FunctionNamed | src/codegen_wasm.c:9174-9265 | a reachable function's planned index names its import, or its own body and type index |
| NamedIndices.FunctionTyped | src/codegen_wasm.c:9109-9123 | the type entry of what that index names is the function's declared type, after sharing and redirection |
| NamedIndices.FunctionSpelledOut | src/codegen_wasm.c:9174-9190 | the index of an imported function names an import of the module and the field that its first directive gives, in that order, with its declared type |
| NamedIndices.GlobalSpelledOut | src/codegen_wasm.c:9204-9228 | so does that of an imported global, with its last directive, and it is mutable exactly if it is imported as a variable |
| NamedIndices.PanicSpelledOut | src/codegen_wasm.c:1707-1710 | so does the panic function's |
| NamedIndices.ExportsSpelledOut | src/codegen_wasm.c:9336-9405 | the exports are those of the reached mains in order, named `hop_main`, and then those of the directives with reached targets, each with the name that the directive gives and the function it names |
| NamedIndices.SupportNamed | src/codegen_wasm.c:1741-1761 | the indices of allocator thunk, logger, console import and entry wrapper name them |
| NamedIndices.SupportTyped | src/codegen_wasm.c:9124-9153 | so do their type indices |
| NamedIndices.PanicNamed | src/codegen_wasm.c:1707-1710 | the panic function's index names the last import marked as the platform's |
| NamedIndices.GlobalsNamed | src/codegen_wasm.c:9291-9330 | the planned indices of frame pointer, heap pointer and closure slots name them |
| NamedIndices.ImportedGlobalNamed | src/codegen_wasm.c:9204-9228 | an imported global's index names its last directive's import |
| NamedIndices.ExportsNamed | src/codegen_wasm.c:9336-9405 | every export names a reachable function or its wrapper, and as many are announced as written |
| NamedIndices.TableNamed | src/codegen_wasm.c:9410-9440 | a function's place in the table holds its index |
| NamedIndices.TableFilledExactly | src/codegen_wasm.c:9417-9436 | an element that names nothing is written if and only if there are functions, none is reachable, and no support function stands in |
| NamedIndices.TableEntryNamesNothing | src/codegen_wasm.c:9417-9436 | the table of a program with one unreached function has one entry, which names nothing |
| NamedIndices.BuildModule | src/codegen_wasm.c:8955-9671 | signatures, indices and sections together: written exactly for supported, accepted programs, and then all functions are named, imports with both names spelled out, and typed |
| Linking.IndicesDistinct | src/codegen_wasm.c:1690-1723 | no two functions that are kept have one index |
| Linking.LinkedBytesPreserveMeaning | src/codegen_wasm.c:7775-7776 | a function whose calls are renumbered to indices, written and parsed back, ends as the function does, its calls being the function's, each by its index |
| Linking.CallsReachTheirCallees | src/codegen_wasm.c:7775-7776 | with every call index taken for what the written module names by it, the parsed bytes of a function end as the flat function does when each call is one of the callee's own import or body |
| FrameLayout.PlanFrame | src/codegen_wasm.c:2500-2608 | computes the offsets and the size of a frame as specified |
| FrameLayout.WalkBehindPlan | src/codegen_wasm.c:3531-3557 | the later walk over temporaries never gets past where the plan put them |
| FrameLayout.TempOffsetForPc | src/codegen_wasm.c:3531-3557 | returns the specified offset of an instruction's temporary |
| FrameLayout.ClosureOffsetForPc | src/codegen_wasm.c:3559-3583 | returns the offset the plan gave a closure environment |
| FrameLayout.FrameIsSound | src/codegen_wasm.c:2500-2608 | locals, string cells, temporaries, the allocator cell and closures are disjoint, inside the frame and at multiples of four, and so is the size of the frame |
| PlannedFrames.PlannedFrameIsOk | src/codegen_wasm.c:2511-2560 | the planned slots of a function's locals are what its emitted code needs: disjoint and inside the frame |
| Aggregates.FieldsApart | src/codegen_wasm.c:3224-3258 | fields of one aggregate do not overlap, whatever their alignments |
| Aggregates.NestedInside | src/codegen_wasm.c:3585-3684 | a field at any depth of nesting lies inside the outermost aggregate |
| Aggregates.NestedApart | src/codegen_wasm.c:3585-3684 | fields neither of which holds the other are disjoint, at whatever depths |
| Aggregates.RoundedIsMultiple | src/codegen_wasm.c:3254-3255 | offsets are multiples of alignments that are powers of two |
| Aggregates.RoundingExact | src/codegen_wasm.c:3252-3255 | rounding to an alignment that is given always gives a multiple of it if and only if it is not three |
| Aggregates.FieldsAlignedExactly | src/codegen_wasm.c:3294-3312 | a field is at a multiple of its alignment behind whatever fields if and only if its alignment is not three |
| Aggregates.ThreeIsNoAlignment | src/codegen_wasm.c:3294-3312 | behind one byte, what has an alignment of three is at offset 1 |
| Aggregates.SizeIsLeast | src/codegen_wasm.c:3257 | when the largest alignment of its fields is not three, the size of an aggregate is the least multiple of it that no field's end is beyond |
| Aggregates.ArraysStayAligned | src/codegen_wasm.c:3224-3258 | then in every one of several aggregates end to end every field is at a multiple of its alignment, if that is not three |
| Aggregates.InsideAlignedExactly | src/codegen_wasm.c:3294-3312 | wherever an aggregate whose largest alignment is not three is a field, its own field is at a multiple of its alignment, if and only if that is neither eight nor three |
| Aggregates.WideInside | src/codegen_wasm.c:3294-3312 | behind four bytes, an aggregate of one 64-bit integer is at offset 4 |
| Aggregates.SizeAtThree | src/codegen_wasm.c:3257 | when it is three, the size is the end of the fields or two bytes more, and a multiple of three exactly for four ends in twelve |
| Aggregates.ThreeInArrays | src/codegen_wasm.c:3257 | one byte and three take four bytes |
| Aggregates.FindField | src/codegen_wasm.c:3585-3684 | finds a field of the name with its offset if and only if there is one down to the depth limit, fields of the aggregate itself first; in an aggregate without a layout, only its own fields before the first that has none |
| FieldAddress.FieldAddressExec | src/codegen_wasm.c:3334-3482 | the emitted code pushes the address that walking over the fields with their lengths in memory gives |
| FieldAddress.StaticAddress | src/codegen_wasm.c:3314-3482 | without a varying field before it, that is the static offset |
| FieldAddress.RunFieldsApart | src/codegen_wasm.c:3353-3480 | fields with their run-time contents do not overlap |
| Reachability.MarkFromRoots | src/codegen_wasm.c:413-451 | marks the least set that holds mains and exports and is closed under calls; the queue never outgrows the functions |
| Reachability.BuildReachableFunctionSet | src/codegen_wasm.c:375-467 | marks that set, and the platform's panic imports if and only if a function in it may panic |
| Reachability.MarkReachableClosure | src/codegen_wasm.c:2179-2217 | adds one root and everything it reaches |
| Reachability.ClosureOfAllRoots | src/codegen_wasm.c:2179-2217 | the fixpoint loop over all roots marks the least closed set |
| Reachability.MarksAreUnique | src/codegen_wasm.c:413-451 | so worklist and fixpoint mark the same functions |
| RootAllocator.BaseBounds | src/codegen_wasm.c:8705-8819 | whatever the alignment, a block starts at or above the heap pointer, less than an alignment away |
| RootAllocator.BaseAligned | src/codegen_wasm.c:8705-8819 | a block is aligned when its alignment is a power of two |
| RootAllocator.BlocksAreDisjoint | src/codegen_wasm.c:8705-8819 | over any sequence of requests without wrap-around the blocks are disjoint and the heap pointer never decreases |
| RootAllocator.Heap.Allocate | src/codegen_wasm.c:8679-8823 | the thunk step by step, without wrap-around: serves or rejects a request as specified, zeroes every byte of a block, and changes nothing on rejection |
| RootThunk.ThunkServes | src/codegen_wasm.c:8700-8822 | the emitted instructions, run on any request and memory: 0 and nothing changed, or the block's address with the block cleared and the heap pointer moved, or a trap exactly past the end of memory |
| RootThunk.AnsweredExactly | src/codegen_wasm.c:8770-8819 | an answered block lies in memory, is cleared and ends at the heap pointer if and only if its end does not wrap; otherwise nothing is cleared and the pointer falls below the block |
| RootThunk.WrappingRequestServed | src/codegen_wasm.c:8770-8819 | at 1024, a request for 4 GiB less 512 bytes gets 1024 and moves the pointer to 512 |
| TopoOrder.BuildPackageTopologicalOrder | src/hop_codegen.c:1076-1099 | succeeds if and only if all imports resolve and none run in a circle; then each package comes once, after its imports |
| TopoOrder.OrderMeansAcyclic | src/hop_codegen.c:1047-1074 | such an order exists only for resolved imports without circles |
| BuildCache.HistoriesStayConsistent | src/hop_codegen.c:706-750 | over every history of edits, tool-chain changes, evictions and builds the cache stays consistent |
| BuildCache.UpToDateIsClean | src/hop_codegen.c:706-750 | an object that counts as up to date is what a clean build would make |
| BuildCache.EditNoticedExactly | src/hop_codegen.c:706-750 | the object of an edited package counts as up to date if and only if the edit is stamped no later than the object and the present imports have no newer objects; either way it is not the clean one |
| BuildCache.StampedEditKeepsExactly | src/hop_codegen.c:663-680 | an edit keeps the cache consistent if and only if it is stamped later than the object |
| BuildCache.SameTickIsStale | src/hop_codegen.c:706-750 | with an edit in the same tick as the object a stale object counts as up to date |
| CachedBuild.MissedEditExactly | src/hop_codegen.c:1101-1239 | after a build, an edit passes the checks of all packages exactly in that case, and the objects that are no longer clean are those of the packages that reach the edited one |
| CachedBuild.Cache.IsPackageArtifactUpToDate | src/hop_codegen.c:706-750 | the check over sources and imported objects computes the specified condition |
| CachedBuild.Cache.BuildCachedPackageArtifacts | src/hop_codegen.c:1101-1239 | a build that succeeds leaves every object as a clean build would make it; it makes anew exactly the objects of the packages that reach one that was not up to date, and counts them; it fails only for bad imports or when the compiler refuses such a package as a clean build would compile it |
| CachedBuild.NoNewerSource | src/hop_codegen.c:663-680 | after a build no source in a package's imports, however far, is newer than its object |
| FmtParse.ParseBytes | src/fmt_parse.c:32-113 | computes the specified tokens, or the first error; runs out of room exactly when there are more tokens before the first error than fit, so never with room for as many tokens as bytes |
| FmtParse.ParsesExactlyTheGrammar | src/fmt_parse.c:32-113 | parsing succeeds if and only if the bytes are text with doubled braces and placeholders |
| FmtParse.TokensSpelled | src/fmt_parse.c:32-113 | every token is what its kind says: `{i}`, `{f}`, `{s}` and `{r}` are the placeholders of their kinds, literals are text without single braces |
| FmtParse.TokensCoverInput | src/fmt_parse.c:32-113 | the tokens tile the input and their spans concatenate to it |
| LineDiff.SplitJoins | src/hop_support.c:1588-1624 | joining the lines gives the text back, one line more than newlines |
| LineDiff.BuildLines | src/hop_support.c:1588-1624 | fills exactly the counted lines, each with its span |
| LineDiff.CompareLines | src/hop_support.c:2403-2485 | the steps turn the current lines into the expected ones, and there are no issues if and only if they are the same |
| LineDiff.SingleChanges | src/hop_support.c:2403-2485 | one line removed is one issue, and so is one inserted or replaced where the look-ahead of one line is not misled |
| LineDiff.Report | src/hop_support.c:2380-2491 | no issues are reported if and only if the texts are equal byte for byte |
| LineDiff.EqualButForSpace | src/hop_support.c:1670-1697 | decides equality up to white space |
| Examples.ChainWellFormed | src/codegen_wasm.c:4464-4558 | a loop with a chain of conditions has a stack map |
| Examples.ChainEmitted | src/codegen_wasm.c:4597-4712 | its emitted code is a block around a loop whose condition is an `if` with a result |

## Left out

- Instructions on pointers, references, aggregates, slices and closures, calls through the table, and string concatenation: the structuring pass treats them like any other instruction that falls through; their own code is not modelled, except field addresses.
- A frame holds 32-bit and 64-bit integers and strings only; all other locals that live in a frame are left out of the body model.
- Narrow integers and the unsigned widening 0xad (src/codegen_wasm.c:1256-1260): integers of the body model are signed and 32 or 64 bits wide. `Findings.UnsignedOrderExact` says what that means for order.
- The address that a caller passes for a result in memory is part of `Signatures`, not of the calls in the body model.
- FunctionBodies.EmitFunctionBody: writes the number that the function's call instructions hold; `Linking` puts the planned indices there.
- Operators whose operands contain `break` or `continue`, and jumps at a stack height other than their label's, have no stack map here.
- `switch`, `for` over sequences, packs and `defer` are not part of `Structured`; conditions are lowered as they are, without evaluating them.
- 64-bit order comparisons and string comparisons have no stack map: what is emitted for them is wrong, see Findings.
- The platform's panic function, which a failed assertion calls before it traps, is a trap.
- Null compared with strings or pointers; strings ordered or concatenated by the interpreter; its floating-point numbers, optionals, types, references and aggregates.
- The interpreter's limit on backward jumps, its hooks, and the diagnostics it sets: it is modelled without a limit, with hooks that keep integers, booleans and strings as they are.
- Evaluation.EvaluationIsPreserved: asks that callees answer alike rather than evaluating them; a callee that the interpreter refuses is a refusal here too.
- WasmEmitSliceEquality, logger bodies, and the entry wrapper's body.
- Data segments and where string constants lie in memory: string contents are a parameter of the evaluator, and memory contents one of the findings.
- Imported globals also get a function body in the source; the body is not modelled.
- Growth of the heap towards the frames: only each region's own discipline is stated.
- Arrays larger than were asked for: `Buffers.Buffer.Reserve` gets exactly the size it asks for.
- Allocation failure in the compiler, and 32-bit overflow of planning arithmetic: planned sizes and offsets are natural numbers.
- A field named `Allocator` of a type without a size, which the source gives four bytes, and type tables that are circular.
- The files behind a build: a package is its imports, a body and a time stamp, and writing an object and its signature is one step.
- Directory time stamps and the existence of intermediate C files in the cache check.
