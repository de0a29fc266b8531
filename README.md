# StaticAnalyses, modelled in Dafny

StaticAnalyses is a set of LLVM module passes. They audit the native functions that Java calls through JNI. These are the functions defined in the module whose names start with `Java_`. Each pass answers one question about such a function and everything it calls:

- **FunctionalPurity**: is the function free of side effects?
- **PointerArithmetic**: does it compute addresses by raw offsets rather than struct field access?
- **TypeCasts**: does it cast integers to pointers or pointers to integers?
- **DynamicMemory**: does it allocate or release memory, through C/C++ allocators or through JNI's memory-managing functions?

`AllPasses` runs all four walkers and writes one line of flags per function.

The model has these parts:

- **`Ir`**: an abstract view of the IR the passes read.
  - A program is a map from function names to declarations or definitions.
  - A function carries its "only reads memory" attribute and its instruction list.
  - An instruction carries its opcode, its operands, `mayThrow` and `mayReturn`.
  - A `getelementptr` (GEP) is given by its base pointer type and its indices.
  - A type is rendered to the text LLVM prints for it.
- **`Text`**: the substring and prefix tests (`find(...) != npos`, `find(...) == 0`).
- **`Classify`**: the pure helpers `javaCall`, `pointsToStruct`, `JNIFuncWithIndLocated`, `jniMem` and `dynMem`.
- **`Walk`**: one specification shared by the four recursive walkers.
  - `Evidence` is what the walker answers: "impure", "found", "found", "found". `functionalPurity` returns its negation.
  - A walker scans the instructions in order and stops at the first piece of evidence.
  - At a resolved call that is not a JNI boundary call, it descends into the callee unless the callee's name is in the history.
  - Before descending it inserts the caller's own name into its by-value copy of the history.
  - The termination measure is `2 * |names not in the history| + (1 if the function's own name is in it)`.
- **`Walkers`**: the four walkers as loops with early returns, each proved to compute `Evidence`.
- **`WalkProps`**: what the walkers compute, as a theorem. A walker reports evidence exactly when some call chain from the function reaches a function that holds evidence itself. The chain may never re-enter a name that was in the history at the start. So the history copies only prevent re-entering a function, and the driver's empty history loses nothing reachable.
- **`Driver`**: the `runOnModule` entry points. They filter `Java_` definitions in module order, start each walk from an empty history, and write exact log lines that can be read back.
- **`Scenarios`**: the repository's dynamic-memory test fixtures as IR, plus boundary-call and cycle examples.

Two properties of the code are worth stating up front:

- **Combined line polarity.** The `AllPasses` line writes ` 0 ` for a pure function and ` 1 ` for an impure one (StaticAnalyses/StaticAnalyses.cpp:409). This is the reverse of its other three flags, where 1 means found. `Driver.AllRow` writes it as the code does.
- **Cycles.** Skipping a callee already in the history never hides reachable evidence (`WalkProps.WalkIsReachability`, `WalkProps.FromEmptyHistory`). A walk started from the empty history reports evidence exactly when a function holding evidence is reachable through descended-into calls.

## Model

| member | source | states |
|---|---|---|
| Text.ContainsIff | StaticAnalyses/StaticAnalyses.cpp:31-32 | `find(pat) != npos`, written on top of `Text.Find`, holds exactly when `pat` occurs at some position of the string |
| Classify.JavaCall | StaticAnalyses/StaticAnalyses.cpp:20-38 | `javaCall` holds exactly when `%struct.JNINativeInterface_*` or `%struct.JNIInvokeInterface_*` occurs at some position of the first argument's printed type; `Classify.JavaCallOnTables` shows which types satisfy it |
| Classify.JavaCallOnTables | StaticAnalyses/StaticAnalyses.cpp:20-38 | A first argument typed with one or more pointer levels around `JNINativeInterface_` (`JNIEnv *`) or `JNIInvokeInterface_` (`JavaVM *`) makes the call a JNI boundary call |
| Classify.JavaCallDeeper | StaticAnalyses/StaticAnalyses.cpp:20-38 | One more pointer level around a boundary argument type keeps it a boundary argument, because the printed type only gains a trailing `*` |
| Classify.PointsToStruct | StaticAnalyses/StaticAnalyses.cpp:121-128 | `pointsToStruct` holds exactly when removing some number k >= 1 of pointer levels reaches a struct type; a non-pointer, non-struct pointee met first makes it false |
| Classify.ArithGepNeedsOffsetAndNonStruct | StaticAnalyses/StaticAnalyses.cpp:137-143 | A GEP counts as pointer arithmetic exactly when some index is not the constant 0 and no pointer level of its base reaches a struct; all-zero indices or a struct-reaching base never count |
| Classify.JniIndicesContents | StaticAnalyses/StaticAnalyses.cpp:287-305 | The slot table has 33 entries, and a number is in it exactly when it is in 19..23, 25, 27, 165, 166, 169, 170, 183..198 or 222..227 |
| Classify.Trunc32 | StaticAnalyses/StaticAnalyses.cpp:273 | Storing the 64-bit `getZExtValue()` into an `unsigned` gives a value below 2^32 that equals the constant whenever the constant fits |
| Classify.JniSlot | StaticAnalyses/StaticAnalyses.cpp:267-273 | A GEP selects a slot exactly when its base type prints with `%struct.JNINativeInterface_*`, it has at least three operands and operand 2 is a constant; the slot is below 2^32 and equals that constant whenever the constant fits |
| Classify.JniFuncWithIndLocated | StaticAnalyses/StaticAnalyses.cpp:264-281 | `JNIFuncWithIndLocated(inst, index)` holds exactly when some operand of the instruction is a GEP selecting slot `index`; an index of 2^32 or more is never located |
| Classify.JniMem | StaticAnalyses/StaticAnalyses.cpp:284-313 | `jniMem` holds exactly when some operand is a GEP selecting a slot that is in the 33-entry table; `Classify.JniMemIff` spells out the slot conditions |
| Classify.JniMemIff | StaticAnalyses/StaticAnalyses.cpp:264-313 | `jniMem` fires exactly when some operand is a GEP whose base type prints with `%struct.JNINativeInterface_*`, has at least three operands and has a constant operand 2 whose truncation to 32 bits is a listed slot |
| Classify.JniSlotNeedsThreeOperands | StaticAnalyses/StaticAnalyses.cpp:272 | A GEP with fewer than three operands selects no slot, whatever its base type |
| Classify.IsDynMem | StaticAnalyses/StaticAnalyses.cpp:316-327 | The scan over the allocator table, which stops at the first entry equal to the name, returns true exactly when the name is one of `malloc`, `calloc`, `realloc`, `free`, `_Znwm`, `_Znam`, `_ZdlPv`, `_ZdaPv` (the set, independent of the table's order) |
| Walk.MeasureDrops | StaticAnalyses/StaticAnalyses.cpp:75-77 | Descending from a function into a callee not in the history, with the caller's name inserted, strictly lowers the measure, so every walk terminates |
| Walk.MeasureKeeps | StaticAnalyses/StaticAnalyses.cpp:76 | Inserting the caller's own name into its history copy never raises the caller's measure |
| Walk.NonBoundaryCallee | StaticAnalyses/StaticAnalyses.cpp:147-153 | Its definition writes out the walkers' descent test (the same test at :66-75, :211-217 and :339-351): only a `call` whose first argument is no JNI table and whose callee resolves is descended into; its contract states only that the callee returned is a function of the program |
| Walkers.FunctionalPurity | StaticAnalyses/StaticAnalyses.cpp:48-87 | The loop with early returns and a history copy returns true exactly when the purity walk finds no impure operation (`IsPure`) |
| Walkers.PointerArithmetic | StaticAnalyses/StaticAnalyses.cpp:131-166 | The loop returns exactly the pointer-arithmetic walk's answer for the function and history it is given |
| Walkers.TypeCasts | StaticAnalyses/StaticAnalyses.cpp:200-230 | The loop returns exactly the type-cast walk's answer for the function and history it is given |
| Walkers.DynamicMemory | StaticAnalyses/StaticAnalyses.cpp:330-365 | The loop, which tests the allocator name before the history, returns exactly the dynamic-memory walk's answer |
| Walkers.RunWalker | StaticAnalyses/StaticAnalyses.cpp:99 | The call each single-analysis pass makes per entry (here and at :178, :242, :377) returns that analysis' `Evidence`, negating the purity walker's answer |
| WalkProps.WalkIsReachability | StaticAnalyses/StaticAnalyses.cpp:65-82 | A walk from f under history H reports evidence exactly when a call chain from f whose later members avoid H reaches a function with evidence of its own |
| WalkProps.FromEmptyHistory | StaticAnalyses/StaticAnalyses.cpp:93-99 | From the empty history the driver passes, the answer is exactly whether a function holding evidence is reachable through descended-into calls |
| WalkProps.HistoryOnlyHides | StaticAnalyses/StaticAnalyses.cpp:75 | Evidence found under a larger history is also found under any smaller one |
| WalkProps.UnfoldSound | StaticAnalyses/StaticAnalyses.cpp:75-79 | A function with evidence but none of its own has a descended-into callee outside the history that has evidence under the history extended with the caller |
| WalkProps.CalleeEvidencePropagates | StaticAnalyses/StaticAnalyses.cpp:75-79 | Evidence of a descended-into callee outside the history, walked with the caller added, is evidence of the caller |
| WalkProps.Unfold | StaticAnalyses/StaticAnalyses.cpp:53-84 | One level of any walk: evidence exactly when the function holds evidence itself or a callee it descends into, outside the history, has evidence under the history extended with the caller |
| WalkProps.PurityIff | StaticAnalyses/StaticAnalyses.cpp:48-87 | Pure exactly when the function only reads memory, no instruction has a global-variable operand, may throw, may not return or is a boundary call, and every callee descended into is pure |
| WalkProps.PointerArithmeticIff | StaticAnalyses/StaticAnalyses.cpp:131-166 | Found exactly when an operand of some instruction is a GEP with a non-zero index whose base reaches no struct, or a callee descended into has pointer arithmetic |
| WalkProps.TypeCastsIff | StaticAnalyses/StaticAnalyses.cpp:200-230 | Found exactly when some instruction is an `inttoptr` or `ptrtoint` cast, or a callee descended into has one; other casts count for nothing |
| WalkProps.DynamicMemoryIff | StaticAnalyses/StaticAnalyses.cpp:330-365 | Found exactly when some instruction locates a JNI memory slot or makes a resolved non-boundary call to one of the eight allocator symbols, or a callee descended into allocates |
| WalkProps.AllocatorCallAlwaysFound | StaticAnalyses/StaticAnalyses.cpp:344-348 | A resolved non-boundary call to an allocator symbol is found whatever the history holds, because the name test runs before the history test |
| WalkProps.DeclarationResult | StaticAnalyses/StaticAnalyses.cpp:50-53 | A declaration has no instructions: it is impure exactly when it is not read-only, and the other three walkers find nothing in it |
| Driver.IsEntry | StaticAnalyses/StaticAnalyses.cpp:98 | Computed as `find("Java_") == 0` on a definition, and proved to hold exactly when the function is a definition whose name begins with `Java_` |
| Text.FindSpec | StaticAnalyses/StaticAnalyses.cpp:98 | The model of `find` returns -1 (for `npos`) exactly when the pattern occurs nowhere, and otherwise a position where it occurs with no occurrence before it |
| Driver.Entries | StaticAnalyses/StaticAnalyses.cpp:95-98 | The analysed functions, in the order `order` gives, are all functions of the module and no more numerous than the names of `order`; `Driver.EntriesMembers` and `Driver.EntriesOfModule` say which they are |
| Driver.EntriesMembers | StaticAnalyses/StaticAnalyses.cpp:95-98 | The analysed functions are exactly the names of `order` that are definitions starting with `Java_` |
| Driver.EntriesNoRepeats | StaticAnalyses/StaticAnalyses.cpp:95-98 | An order that lists no function twice yields analysed functions without repeats |
| Driver.EntriesOfModule | StaticAnalyses/StaticAnalyses.cpp:95-98 | When `order` lists every function of the module exactly once, the analysed functions are exactly the module's definitions starting with `Java_`, each listed once |
| Driver.Row | StaticAnalyses/StaticAnalyses.cpp:99 | A single-analysis line (same layout at :178, :242, :377) starts with the function name, continues with the pass's sentence and ends the line; `Driver.RowRoundTrip` shows it reads back |
| Driver.RowRoundTrip | StaticAnalyses/StaticAnalyses.cpp:99 | A single-analysis log line reads back to the function name and verdict it was written for; the two sentences of a pass never collide |
| Driver.AllRow | StaticAnalyses/StaticAnalyses.cpp:407-412 | An `AllPasses` line reads back to the name and four flags, with purity written 0 for pure and the other flags 1 for found; the reader accepts only the name followed by ` f `, ` f `, ` f `, ` f` and a line end, with each `f` a `0` or `1` |
| Driver.ReadAllRowExact | StaticAnalyses/StaticAnalyses.cpp:407-412 | Any line that reads back to a name and four flags is character for character the line written for them, so the read-back in `AllRow`'s contract fixes the whole line: the spaces, ` 0 `/` 1 ` for pure/impure, the found flags and the `\n` |
| Driver.LogLines | StaticAnalyses/StaticAnalyses.cpp:99 | Line k of a single-analysis log is the k-th analysed function's name with the sentence for the walker's answer from an empty history |
| Driver.AllLogLines | StaticAnalyses/StaticAnalyses.cpp:407-412 | Line k of an `AllPasses` log is the k-th analysed function's line, with the four walkers' answers from an empty history |
| Driver.AnalyseOne | StaticAnalyses/StaticAnalyses.cpp:99 | The line written for one analysed function is its expected line: the walker run from an empty history, then its sentence |
| Driver.AnalyseAll | StaticAnalyses/StaticAnalyses.cpp:407-412 | The `AllPasses` line written for one analysed function carries the four walkers' answers, each from the same empty history |
| Driver.RunOnModule | StaticAnalyses/StaticAnalyses.cpp:90-105 | The loop writes exactly the expected log of the analysed functions in module order: by `Driver.LogLines`, one line per function with the walker's answer from an empty history |
| Driver.RunAllPasses | StaticAnalyses/StaticAnalyses.cpp:398-418 | The loop writes exactly the expected `AllPasses` log: by `Driver.AllLogLines`, one line per analysed function in module order with the four walkers' answers from an empty history |
| Scenarios.MallocFixtureFound | Tests/test_DynamicMemory.c:4-11 | The function calling `malloc` is reported as allocating |
| Scenarios.LocalArrayStoreNoJniSlot | Tests/test_DynamicMemory.c:42-45 | Indexing a local `char[5]` locates no JNI memory slot |
| Scenarios.StaticFixtureNotFound | Tests/test_DynamicMemory.c:41-48 | The function using only a local buffer and `printf` is reported as not allocating |
| Scenarios.CppStaticFixtureNotFound | Tests/test_DynamicMemoryPP.cpp:26-29 | The C++ function that only copies its argument and writes it to `std::cout` is reported as not allocating, since `operator<<(int)` is no allocator; the global stream operand makes it impure |
| Scenarios.StaticFixtureIndexesArray | Tests/test_DynamicMemory.c:41-48 | The same function is reported as having pointer arithmetic: it indexes an array, which is no struct |
| Scenarios.EveryAllocatorFixtureFound | Tests/test_DynamicMemoryPP.cpp:6-24 | A JNI function calling any of the eight allocator symbols, C's or C++'s `new`/`delete`, is reported as allocating |
| Scenarios.MallocFixtureImpure | Tests/test_DynamicMemory.c:4-11 | The function calling `malloc` is impure even with its own read-only flag set (set in the fixture to isolate the call), because `malloc` is a declaration that may write memory |
| Scenarios.BoundaryCallNotEntered | StaticAnalyses/StaticAnalyses.cpp:66-70 | A function whose only call passes `JNIEnv *` is impure, yet the other walkers find nothing even though the callee casts, indexes a raw pointer and calls `malloc` |
| Scenarios.CycleFindsCast | StaticAnalyses/StaticAnalyses.cpp:217-221 | On a two-function cycle the walk ends and finds the cast after the call, starting from either function |
| Scenarios.SelfLoopFindsNothing | StaticAnalyses/StaticAnalyses.cpp:75-79 | A function that only calls itself ends all four walks with nothing found, so purity answers "pure" |

## Left out

- The LLVM pass machinery is not modelled: `ModulePass`, pass IDs, `getAnalysisUsage` and registration. None of it affects the answers.
- Log files are not modelled. Opening, appending and closing are left out, and the log is the sequence of lines one run appends.
- LLVM's own definitions are taken as given fields of the IR model: `onlyReadsMemory`, `mayThrow`, `mayReturn`, `isa<GlobalVariable>` and the printed text of a type. The model does not derive them.
- The module's function order is an input (`order`), because the IR model has no iterator. The driver methods accept any order of module functions; `Driver.EntriesOfModule` covers the order that lists each function once.
- A call whose callee name is not a function of the program is treated like a NULL callee and is not entered. A function outside the module cannot be analysed.
- Classify.JniSlot: a non-constant operand 2 of a JNI-table GEP selects no slot. The source aborts in `cast<ConstantInt>` there, and the model does not capture that abort.
- Classify.Trunc32: `getZExtValue` on a constant wider than 64 bits, which asserts in LLVM, is not modelled. Constants are unbounded naturals truncated to 32 bits.
- Classify.JavaCall: a call with no arguments is not modelled. `getArgOperand(0)` on such a call reads out of range in the source. The model looks only at the type of the first argument.
- Classify.JniIndicesContents: does not state that the 33 entries are pairwise distinct. Only the length and the set of values are proved.
- The `(PointerType*)` casts of `getPointerOperandType()` assume a scalar pointer base. Vectors of pointers are not modelled.
