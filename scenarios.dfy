/**
 * Concrete modules: the dynamic-memory fixtures of the repository's tests,
 * written as abstract IR, and small call graphs with boundary calls and cycles.
 */
module Scenarios {
  import opened Ir
  import opened Classify
  import opened Walk
  import opened WalkProps
  import opened Text

  const CharPtr := Ptr(Leaf("i8"))
  const JniEnv := Ptr(Ptr(Struct("%struct.JNINativeInterface_")))

  function CallTo(callee: string, firstArg: Type): Inst
  {
    Inst(Call(Some(callee), firstArg), [OtherValue], false, true)
  }

  /** A store through `c[j]` on a `char *`: a user of a GEP with a variable index. */
  const StoreThroughCharPtr := Inst(OtherOp, [OtherValue, GepRef(Gep(CharPtr, [VarIdx]))], false, true)

  /** A store through `c[j]` on a local `char c[5]`: the GEP's base is `[5 x i8]*`. */
  const StoreThroughLocalArray :=
    Inst(OtherOp, [OtherValue, GepRef(Gep(Ptr(Leaf("[5 x i8]")), [ConstIdx(0), VarIdx]))], false, true)

  /**
   * `Java_test_DynamicMemory_malloc_1` and `Java_test_DynamicMemory_static_0`:
   * the first calls `malloc`, both fill a buffer and call `printf`. Both are
   * marked as only reading memory, although their stores would not earn them
   * that attribute, so that the purity lemma below isolates the effect of the
   * `malloc` call.
   */
  const DynMemFixture: Program := map[
    "malloc" := Declaration(false),
    "printf" := Declaration(false),
    "Java_test_DynamicMemory_malloc_1" := Definition(true, [
      CallTo("malloc", Leaf("i64")),
      StoreThroughCharPtr,
      CallTo("printf", CharPtr)]),
    "Java_test_DynamicMemory_static_0" := Definition(true, [
      StoreThroughLocalArray,
      CallTo("printf", CharPtr)])
  ]

  /** The fixture's expectation: the `_1` function allocates. */
  lemma MallocFixtureFound()
    ensures Evidence(DynamicMemoryPass, DynMemFixture, "Java_test_DynamicMemory_malloc_1", {})
  {
    AllocatorCallAlwaysFound(DynMemFixture, "Java_test_DynamicMemory_malloc_1", {}, 0);
  }

  lemma LocalArrayStoreNoJniSlot()
    ensures !JniMem(StoreThroughLocalArray)
  {
    JniMemIff(StoreThroughLocalArray);
    assert !Contains("[5 x i8]*", JniEnvTable);
  }

  /** The fixture's expectation: `_static_0` does not allocate. */
  lemma StaticFixtureNotFound()
    ensures !Evidence(DynamicMemoryPass, DynMemFixture, "Java_test_DynamicMemory_static_0", {})
  {
    var p := DynMemFixture;
    var f := "Java_test_DynamicMemory_static_0";
    LocalArrayStoreNoJniSlot();
    var call := CallTo("printf", CharPtr);
    assert Body(p[f]) == [StoreThroughLocalArray, call];
    assert !JniMem(call);
    assert !JavaCall(CharPtr);
    assert NonBoundaryCallee(p, call) == Some("printf");
    assert !DynMem("printf");
    DeclarationResult(DynamicMemoryPass, p, "printf", {f});
    assert {} + {f} == {f};
    assert !ScanFrom(DynamicMemoryPass, p, f, 2, {f});
    assert !ScanFrom(DynamicMemoryPass, p, f, 1, {});
    assert NonBoundaryCallee(p, StoreThroughLocalArray) == None;
    assert !ScanFrom(DynamicMemoryPass, p, f, 0, {});
  }

  /** `std::cout << a`: `operator<<(int)` called on the global stream `std::cout`. */
  const PrintToCout :=
    Inst(Call(Some("_ZNSolsEi"), Ptr(Struct("%\"class.std::basic_ostream\""))), [GlobalVar("_ZSt4cout"), OtherValue], false, true)

  /** Copying the argument into the local `a`: a store that involves no GEP. */
  const StoreLocal := Inst(OtherOp, [OtherValue, OtherValue], false, true)

  /**
   * `Java_test_DynamicMemoryPP_static_0` of the C++ fixtures: it copies its
   * argument into a local and prints it; the only call is to the declared
   * stream operator.
   */
  const CppStaticFixture: Program := map[
    "_ZNSolsEi" := Declaration(false),
    "Java_test_DynamicMemoryPP_static_0" := Definition(false, [StoreLocal, PrintToCout])
  ]

  /** A call on `std::cout` is no JNI call: the stream's type names no JNI table. */
  lemma StreamIsNoJniTable()
    ensures !JavaCall(PrintToCout.op.firstArg)
  {
    var printed := Render(PrintToCout.op.firstArg);
    assert printed == "%\"class.std::basic_ostream\"*";
    forall i ensures !OccursAt(printed, JniEnvTable, i) && !OccursAt(printed, JniInvokeTable, i) {
      assert |printed| == |JniEnvTable| == |JniInvokeTable| == 28;
      assert JniEnvTable[1] == JniInvokeTable[1] == 's';
      if i == 0 {
        assert printed[i + 1] != 's';
        assert printed[i..i + 28][1] == printed[i + 1];
      }
    }
  }

  /** Neither instruction of the C++ `_static_0` addresses a JNI function slot. */
  lemma CppStaticNoJniSlot()
    ensures !JniMem(StoreLocal) && !JniMem(PrintToCout)
  {
    JniMemIff(StoreLocal);
    JniMemIff(PrintToCout);
  }

  /** The only callee the walkers descend into from the C++ `_static_0` is the stream operator, which is no allocator. */
  lemma CppStaticCallees()
    ensures NonBoundaryCallee(CppStaticFixture, StoreLocal) == None
    ensures NonBoundaryCallee(CppStaticFixture, PrintToCout) == Some("_ZNSolsEi")
    ensures !DynMem("_ZNSolsEi")
  {
    StreamIsNoJniTable();
  }

  /** The fixture's expectation: `_static_0` does not allocate, and writing to `std::cout` makes it impure. */
  lemma CppStaticFixtureNotFound()
    ensures !Evidence(DynamicMemoryPass, CppStaticFixture, "Java_test_DynamicMemoryPP_static_0", {})
    ensures !IsPure(CppStaticFixture, "Java_test_DynamicMemoryPP_static_0", {})
  {
    var p := CppStaticFixture;
    var f := "Java_test_DynamicMemoryPP_static_0";
    CppStaticNoJniSlot();
    CppStaticCallees();
    assert Body(p[f]) == [StoreLocal, PrintToCout];
    DeclarationResult(DynamicMemoryPass, p, "_ZNSolsEi", {f});
    assert {} + {f} == {f};
    assert !ScanFrom(DynamicMemoryPass, p, f, 2, {f});
    assert !ScanFrom(DynamicMemoryPass, p, f, 1, {});
    assert NonBoundaryCallee(p, StoreLocal) == None;
    assert !ScanFrom(DynamicMemoryPass, p, f, 0, {});
  }

  /** Indexing the local array of `_static_0` counts as pointer arithmetic: an array is no struct. */
  lemma StaticFixtureIndexesArray()
    ensures Evidence(PointerArithmeticPass, DynMemFixture, "Java_test_DynamicMemory_static_0", {})
  {
    var p := DynMemFixture;
    var f := "Java_test_DynamicMemory_static_0";
    assert Body(p[f])[0] == StoreThroughLocalArray;
    var g := StoreThroughLocalArray.operands[1].gep;
    assert g.indices[1] != ConstIdx(0);
    assert !PointsToStruct(g.base);
    assert IsArithGep(g);
    assert HasArithGepOperand(StoreThroughLocalArray);
    assert ScanFrom(PointerArithmeticPass, p, f, 0, {});
  }

  /** A JNI entry whose first instruction calls allocator symbol `s` (the `_1` fixtures of both test files). */
  function AllocatorFixture(s: string): Program
  {
    map[s := Declaration(false), "Java_test_alloc_1" := Definition(true, [CallTo(s, Leaf("i64"))])]
  }

  /** Every one of the eight allocator symbols is found, C's and C++'s alike. */
  lemma EveryAllocatorFixtureFound(s: string)
    requires s in AllocatorSymbols
    ensures Evidence(DynamicMemoryPass, AllocatorFixture(s), "Java_test_alloc_1", {})
  {
    assert !JavaCall(Leaf("i64"));
    AllocatorCallAlwaysFound(AllocatorFixture(s), "Java_test_alloc_1", {}, 0);
  }

  /**
   * The `_1` function is impure even with its own read-only flag set: `malloc`
   * is a declaration not known to only read memory.
   */
  lemma MallocFixtureImpure()
    ensures !IsPure(DynMemFixture, "Java_test_DynamicMemory_malloc_1", {})
  {
    var p := DynMemFixture;
    var f := "Java_test_DynamicMemory_malloc_1";
    assert !JavaCall(Leaf("i64"));
    assert Evidence(PurityPass, p, "malloc", {f});
    assert ScanFrom(PurityPass, p, f, 0, {});
  }

  /**
   * A function whose only call passes `JNIEnv *` first: the callee, which
   * casts, indexes a raw pointer and calls `malloc`, is never entered. Only
   * purity reacts, with "impure".
   */
  const BoundaryOnly: Program := map[
    "malloc" := Declaration(false),
    "Java_Boundary_call" := Definition(true, [CallTo("Risky", JniEnv)]),
    "Risky" := Definition(true, [
      Inst(Cast(IntToPtr), [OtherValue], false, true),
      StoreThroughCharPtr,
      CallTo("malloc", Leaf("i64"))])
  ]

  /** The call passing `JNIEnv *` is a boundary call and gives no walker anything to find in itself. */
  lemma BoundaryCallOnly()
    ensures IsBoundaryCall(CallTo("Risky", JniEnv))
    ensures NonBoundaryCallee(BoundaryOnly, CallTo("Risky", JniEnv)) == None
    ensures !JniMem(CallTo("Risky", JniEnv))
    ensures !HasArithGepOperand(CallTo("Risky", JniEnv))
  {
    JavaCallOnTables(2);
    assert PtrN(Struct("%struct.JNINativeInterface_"), 2) == JniEnv;
    JniMemIff(CallTo("Risky", JniEnv));
  }

  lemma BoundaryCallNotEntered()
    ensures !IsPure(BoundaryOnly, "Java_Boundary_call", {})
    ensures !Evidence(PointerArithmeticPass, BoundaryOnly, "Java_Boundary_call", {})
    ensures !Evidence(TypeCastsPass, BoundaryOnly, "Java_Boundary_call", {})
    ensures !Evidence(DynamicMemoryPass, BoundaryOnly, "Java_Boundary_call", {})
    ensures Evidence(TypeCastsPass, BoundaryOnly, "Risky", {})
  {
    var f := "Java_Boundary_call";
    var inst := CallTo("Risky", JniEnv);
    BoundaryCallOnly();
    assert Body(BoundaryOnly[f]) == [inst];
    assert !IsReinterpretCast(inst);
    assert InstHit(PurityPass, BoundaryOnly, inst);
    assert ScanFrom(PurityPass, BoundaryOnly, f, 0, {});
    assert !ScanFrom(PointerArithmeticPass, BoundaryOnly, f, 0, {});
    assert !ScanFrom(TypeCastsPass, BoundaryOnly, f, 0, {});
    assert !ScanFrom(DynamicMemoryPass, BoundaryOnly, f, 0, {});
    assert IsReinterpretCast(Body(BoundaryOnly["Risky"])[0]);
    assert ScanFrom(TypeCastsPass, BoundaryOnly, "Risky", 0, {});
  }

  /**
   * A two-function cycle `Java_Cycle_a -> helper -> Java_Cycle_a` where the
   * cast sits in `Java_Cycle_a` after its call: the walk ends and finds it.
   * `selfLoop` calls itself and nothing else: every walker ends with no
   * evidence, so purity answers "pure".
   */
  const Cyclic: Program := map[
    "Java_Cycle_a" := Definition(true, [CallTo("helper", Leaf("i32")), Inst(Cast(PtrToInt), [OtherValue], false, true)]),
    "helper" := Definition(true, [CallTo("Java_Cycle_a", Leaf("i32"))]),
    "selfLoop" := Definition(true, [CallTo("selfLoop", Leaf("i32"))])
  ]

  lemma CycleFindsCast()
    ensures Evidence(TypeCastsPass, Cyclic, "Java_Cycle_a", {})
    ensures Evidence(TypeCastsPass, Cyclic, "helper", {})
  {
    assert !JavaCall(Leaf("i32"));
    assert LocalEvidence(TypeCastsPass, Cyclic, "Java_Cycle_a") by {
      assert InstHit(TypeCastsPass, Cyclic, Body(Cyclic["Java_Cycle_a"])[1]);
    }
    assert EvidencePath(TypeCastsPass, Cyclic, "Java_Cycle_a", {}, ["Java_Cycle_a"]);
    WalkIsReachability(TypeCastsPass, Cyclic, "Java_Cycle_a", {});
    assert Edge(Cyclic, "helper", "Java_Cycle_a") by {
      assert NonBoundaryCallee(Cyclic, Body(Cyclic["helper"])[0]) == Some("Java_Cycle_a");
    }
    assert EvidencePath(TypeCastsPass, Cyclic, "helper", {}, ["helper", "Java_Cycle_a"]);
    WalkIsReachability(TypeCastsPass, Cyclic, "helper", {});
  }

  lemma SelfLoopFindsNothing()
    ensures forall a :: !Evidence(a, Cyclic, "selfLoop", {})
    ensures IsPure(Cyclic, "selfLoop", {})
  {
    var inst := CallTo("selfLoop", Leaf("i32"));
    assert !JavaCall(Leaf("i32"));
    assert !HasGlobalOperand(inst);
    assert !IsBoundaryCall(inst);
    assert !JniMem(inst);
    assert !HasArithGepOperand(inst);
    assert !DynMem("selfLoop");
    assert Body(Cyclic["selfLoop"]) == [inst];
    assert NonBoundaryCallee(Cyclic, inst) == Some("selfLoop");
    assert {} + {"selfLoop"} == {"selfLoop"};
    forall a ensures !Evidence(a, Cyclic, "selfLoop", {}) {
      assert !InstHit(a, Cyclic, inst);
      assert !ScanFrom(a, Cyclic, "selfLoop", 1, {"selfLoop"});
      assert !ScanFrom(a, Cyclic, "selfLoop", 0, {"selfLoop"});
      assert !ScanFrom(a, Cyclic, "selfLoop", 0, {});
    }
  }
}
