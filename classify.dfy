/**
 * The pure helpers of the analyses: the JNI boundary classifier (`javaCall`),
 * the struct-reaching pointer test (`pointsToStruct`), the JNI function-table
 * slot lookup (`JNIFuncWithIndLocated` / `jniMem`) and the allocator symbol
 * lookup (`dynMem`).
 */
module Classify {
  import opened Ir
  import opened Text

  /** Printed type of `JNIEnv` in C: the per-thread JNI function table. */
  const JniEnvTable := "%struct.JNINativeInterface_*"
  /** Printed type of `JavaVM` in C: the invocation interface table. */
  const JniInvokeTable := "%struct.JNIInvokeInterface_*"

  /** `table` occurs somewhere in the printed type `printed`. */
  ghost predicate Mentions(printed: string, table: string)
  {
    exists i :: OccursAt(printed, table, i)
  }

  lemma TablesOccur(printed: string)
    ensures (Contains(printed, JniEnvTable) || Contains(printed, JniInvokeTable)) <==>
      Mentions(printed, JniEnvTable) || Mentions(printed, JniInvokeTable)
  {
    ContainsIff(printed, JniEnvTable);
    ContainsIff(printed, JniInvokeTable);
  }

  /**
   * `javaCall`: the printed type of the call's first argument contains the
   * printed type of one of the two JNI tables somewhere.
   */
  function JavaCall(firstArg: Type): (r: bool)
    ensures r <==> Mentions(Render(firstArg), JniEnvTable) || Mentions(Render(firstArg), JniInvokeTable)
  {
    TablesOccur(Render(firstArg));
    Contains(Render(firstArg), JniEnvTable) || Contains(Render(firstArg), JniInvokeTable)
  }

  /** `n` further levels of pointer around `t`. */
  function PtrN(t: Type, n: nat): Type
  {
    if n == 0 then t else Ptr(PtrN(t, n - 1))
  }

  /**
   * Any number (at least one) of pointer levels around either JNI table struct
   * makes a boundary call: `JNIEnv *env` and `JavaVM *vm` arguments are caught,
   * and so is any deeper indirection.
   */
  lemma {:induction false} JavaCallOnTables(n: nat)
    requires n >= 1
    ensures JavaCall(PtrN(Struct("%struct.JNINativeInterface_"), n))
    ensures JavaCall(PtrN(Struct("%struct.JNIInvokeInterface_"), n))
  {
    var env := Struct("%struct.JNINativeInterface_");
    var vm := Struct("%struct.JNIInvokeInterface_");
    if n == 1 {
      assert Render(PtrN(env, 1)) == JniEnvTable;
      assert StartsWith(Render(PtrN(env, 1)), JniEnvTable);
      assert Render(PtrN(vm, 1)) == JniInvokeTable;
      assert StartsWith(Render(PtrN(vm, 1)), JniInvokeTable);
    } else {
      JavaCallOnTables(n - 1);
      JavaCallDeeper(PtrN(env, n - 1));
      JavaCallDeeper(PtrN(vm, n - 1));
    }
  }

  /** One more level of pointer keeps a boundary argument a boundary argument. */
  lemma JavaCallDeeper(t: Type)
    requires JavaCall(t)
    ensures JavaCall(Ptr(t))
  {
    assert Render(Ptr(t)) == Render(t) + "*";
    if Contains(Render(t), JniEnvTable) {
      ContainsAppend(Render(t), JniEnvTable, "*");
    } else {
      ContainsAppend(Render(t), JniInvokeTable, "*");
    }
  }

  /** The type reached by removing `k` pointer levels from `t`, if there are that many. */
  ghost function Strip(t: Type, k: nat): Option<Type>
  {
    if k == 0 then Some(t)
    else if t.Ptr? then Strip(t.pointee, k - 1)
    else None
  }

  /** Removing `k >= 1` pointer levels from `t` lands on a struct. */
  ghost predicate StructAtDepth(t: Type, k: int)
  {
    k >= 1 && Strip(t, k).Some? && Strip(t, k).value.Struct?
  }

  /** Below a pointer pointee, struct depths shift by one. */
  lemma StructAtDepthStep(t: PointerType)
    requires t.pointee.Ptr?
    ensures (exists k :: StructAtDepth(t, k)) <==> exists k :: StructAtDepth(t.pointee, k)
  {
    if exists k :: StructAtDepth(t.pointee, k) {
      var k :| StructAtDepth(t.pointee, k);
      assert Strip(t, k + 1) == Strip(t.pointee, k);
      assert StructAtDepth(t, k + 1);
    }
    if exists k :: StructAtDepth(t, k) {
      var k :| StructAtDepth(t, k);
      assert Strip(t, k) == Strip(t.pointee, k - 1);
      assert StructAtDepth(t.pointee, k - 1);
    }
  }

  /** A pointee that is neither a pointer nor a struct leaves no struct below. */
  lemma NoStructBelowLeaf(t: PointerType)
    requires t.pointee.Leaf?
    ensures forall k :: !StructAtDepth(t, k)
  {
    forall k ensures !StructAtDepth(t, k) {
      if k >= 1 {
        assert Strip(t, k) == Strip(t.pointee, k - 1);
      }
    }
  }

  /**
   * `pointsToStruct`: follow pointees until a struct (true) or a non-pointer
   * (false). It holds exactly when a struct is reached through one or more
   * pointer levels; a leaf (scalar, array, function) met first makes it false.
   */
  function PointsToStruct(t: PointerType): (r: bool)
    ensures r <==> exists k :: StructAtDepth(t, k)
  {
    if t.pointee.Struct? then
      assert StructAtDepth(t, 1);
      true
    else if t.pointee.Ptr? then
      StructAtDepthStep(t);
      PointsToStruct(t.pointee)
    else
      NoStructBelowLeaf(t);
      false
  }

  /**
   * The address-computation test of `pointerArithmetic`: a non-zero index on a
   * base that does not lead to a struct.
   */
  predicate IsArithGep(g: Gep)
  {
    !g.AllZeroIndices() && !PointsToStruct(g.base)
  }

  /** Neither an all-zero-index computation nor a struct-reaching base is arithmetic. */
  lemma ArithGepNeedsOffsetAndNonStruct(g: Gep)
    ensures g.AllZeroIndices() ==> !IsArithGep(g)
    ensures (exists k :: StructAtDepth(g.base, k)) ==> !IsArithGep(g)
    ensures IsArithGep(g) <==>
      (exists k :: 0 <= k < |g.indices| && g.indices[k] != ConstIdx(0)) && !(exists k :: StructAtDepth(g.base, k))
  {
  }

  /** The JNI function-table slots of the memory-managing JNI functions. */
  const JniIndices: seq<nat> :=
    [ 183, 184, 185, 186, 187, 188, 189, 190, 191, 192, 193, 194, 195, 196, 197, 198, // Get/Release<Type>ArrayElements
      165, 166,   // GetStringChars, ReleaseStringChars
      169, 170,   // GetStringUTFChars, ReleaseStringUTFChars
      224, 225,   // GetStringCritical, ReleaseStringCritical
      222, 223,   // GetPrimitiveArrayCritical, ReleasePrimitiveArrayCritical
      21, 22,     // NewGlobalRef, DeleteGlobalRef
      25, 23,     // NewLocalRef, DeleteLocalRef
      19, 20,     // PushLocalFrame, PopLocalFrame
      226, 227,   // NewWeakGlobalRef, DeleteWeakGlobalRef
      27 ]        // AllocObject

  /** The table has 33 slots, in the ranges of the JNI function table named above. */
  lemma JniIndicesContents()
    ensures |JniIndices| == 33
    ensures forall n :: n in JniIndices <==>
      (19 <= n <= 23 || n == 25 || n == 27 || n == 165 || n == 166 || n == 169 || n == 170
       || 183 <= n <= 198 || 222 <= n <= 227)
  {
  }

  /** Assigning the 64-bit `getZExtValue()` to an `unsigned` keeps its low 32 bits. */
  function Trunc32(v: nat): (r: nat)
    ensures r < 0x1_0000_0000
    ensures v < 0x1_0000_0000 ==> r == v
  {
    v % 0x1_0000_0000
  }

  /**
   * The JNI slot a `getelementptr` selects: its base prints as a JNI function
   * table pointer, it has at least three operands and operand 2 is a constant.
   * A non-constant operand 2 yields `None`.
   */
  function JniSlot(g: Gep): (r: Option<nat>)
    ensures r.Some? <==>
      Contains(Render(g.base), JniEnvTable) && |g.indices| >= 2 && g.indices[1].ConstIdx?
    ensures r.Some? ==> r.value < 0x1_0000_0000
    ensures r.Some? && g.indices[1].value < 0x1_0000_0000 ==> r.value == g.indices[1].value
  {
    if Contains(Render(g.base), JniEnvTable) && g.NumOperands() >= 3 && g.indices[1].ConstIdx?
    then Some(Trunc32(g.indices[1].value))
    else None
  }

  /** `JNIFuncWithIndLocated`: some operand of `inst` selects slot `index`. */
  function JniFuncWithIndLocated(inst: Inst, index: nat): (r: bool)
    ensures r <==> exists k :: 0 <= k < |inst.operands| && inst.operands[k].GepRef?
                              && JniSlot(inst.operands[k].gep) == Some(index)
    ensures index >= 0x1_0000_0000 ==> !r
  {
    exists v | v in inst.operands :: v.GepRef? && JniSlot(v.gep) == Some(index)
  }

  /** `jniMem`: the instruction locates one of the table's slots. */
  function JniMem(inst: Inst): (r: bool)
    ensures r <==> exists k :: 0 <= k < |inst.operands| && inst.operands[k].GepRef?
                              && JniSlot(inst.operands[k].gep).Some?
                              && JniSlot(inst.operands[k].gep).value in JniIndices
  {
    exists index | index in JniIndices :: JniFuncWithIndLocated(inst, index)
  }

  /**
   * `jniMem` fires exactly when some operand is a `getelementptr` whose base
   * prints with the JNI table type, which has at least three operands and
   * whose constant operand 2 (truncated to 32 bits) is a listed slot.
   */
  lemma JniMemIff(inst: Inst)
    ensures JniMem(inst) <==>
      exists k :: 0 <= k < |inst.operands| && inst.operands[k].GepRef?
        && Contains(Render(inst.operands[k].gep.base), JniEnvTable)
        && |inst.operands[k].gep.indices| >= 2
        && inst.operands[k].gep.indices[1].ConstIdx?
        && Trunc32(inst.operands[k].gep.indices[1].value) in JniIndices
  {
    if JniMem(inst) {
      var index :| index in JniIndices && JniFuncWithIndLocated(inst, index);
      var v :| v in inst.operands && v.GepRef? && JniSlot(v.gep) == Some(index);
      var k :| 0 <= k < |inst.operands| && inst.operands[k] == v;
    }
  }

  /** A table entry matched through a GEP with fewer than three operands never counts. */
  lemma JniSlotNeedsThreeOperands(g: Gep)
    requires g.NumOperands() < 3
    ensures JniSlot(g) == None
  {
  }

  /** C's allocation functions, then the Itanium-mangled `operator new`, `new[]`, `delete`, `delete[]`. */
  const AllocatorSymbols: seq<string> :=
    ["malloc", "calloc", "realloc", "free", "_Znwm", "_Znam", "_ZdlPv", "_ZdaPv"]

  /** Whether `dynMem` accepts `name`: it is one of the eight allocator symbols, in whatever order they are listed. */
  function DynMem(name: string): (r: bool)
    ensures r <==> name in {"malloc", "calloc", "realloc", "free", "_Znwm", "_Znam", "_ZdlPv", "_ZdaPv"}
  {
    name in AllocatorSymbols
  }

  /** `dynMem`: compares the name with each entry of the table in turn and stops at the first match. */
  method IsDynMem(name: string) returns (r: bool)
    ensures r == DynMem(name)
  {
    var i := 0;
    while i < |AllocatorSymbols|
      invariant 0 <= i <= |AllocatorSymbols|
      invariant forall k :: 0 <= k < i ==> AllocatorSymbols[k] != name
    {
      if name == AllocatorSymbols[i] {
        return true;
      }
      i := i + 1;
    }
    return false;
  }
}
