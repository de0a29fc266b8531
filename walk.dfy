/**
 * The specification shared by the four interprocedural walkers
 * (`functionalPurity`, `pointerArithmetic`, `typeCasts`, `dynamicMemory`).
 *
 * Each walker scans a function's instructions in order and stops at the first
 * piece of evidence. At a resolved call that is not a JNI boundary call it
 * descends into the callee, unless the callee's name is in the history `h`;
 * before descending it inserts the CALLER's name into its own copy of `h`, and
 * that copy is what later instructions of the caller see. The callee receives
 * the updated copy by value, so nothing a callee inserts flows back.
 *
 * `Evidence` is true when the walker finds what it looks for: an impure
 * operation for purity (so `functionalPurity` returns its negation), pointer
 * arithmetic, a reinterpretation cast, or a dynamic memory operation.
 */
module Walk {
  import opened Ir
  import opened Classify

  datatype Analysis = PurityPass | PointerArithmeticPass | TypeCastsPass | DynamicMemoryPass

  /**
   * The termination measure of a walk of `f` under history `h`: each descent
   * either adds a new name of the program to the history, or (when the
   * caller's name was already present) enters a callee that is not in it.
   */
  function Measure(prog: Program, f: string, h: set<string>): nat
  {
    2 * |prog.Keys - h| + (if f in h then 1 else 0)
  }

  lemma RemoveOne(keys: set<string>, h: set<string>, f: string)
    requires f in keys && f !in h
    ensures |keys - (h + {f})| == |keys - h| - 1
  {
    assert keys - h == (keys - (h + {f})) + {f};
  }

  /** Descending from `f` into a callee `g` outside the history lowers the measure. */
  lemma MeasureDrops(prog: Program, f: string, g: string, h: set<string>)
    requires f in prog && g !in h
    ensures Measure(prog, g, h + {f}) < Measure(prog, f, h)
  {
    if f !in h {
      RemoveOne(prog.Keys, h, f);
    } else {
      assert h + {f} == h;
    }
  }

  /** Inserting the caller's own name never raises its measure. */
  lemma MeasureKeeps(prog: Program, f: string, h: set<string>)
    requires f in prog
    ensures Measure(prog, f, h + {f}) <= Measure(prog, f, h)
  {
    if f !in h {
      RemoveOne(prog.Keys, h, f);
    } else {
      assert h + {f} == h;
    }
  }

  /**
   * The callee a walker may descend into: the instruction is a `call` (not an
   * `invoke`), its first argument is not a JNI table, and its callee resolves
   * to a function of the program.
   */
  function NonBoundaryCallee(prog: Program, inst: Inst): (r: Option<string>)
    ensures r.Some? ==> r.value in prog
  {
    if inst.op.Call? && !JavaCall(inst.op.firstArg) && inst.op.callee.Some? && inst.op.callee.value in prog
    then Some(inst.op.callee.value)
    else None
  }

  predicate IsBoundaryCall(inst: Inst)
  {
    inst.op.Call? && JavaCall(inst.op.firstArg)
  }

  predicate HasGlobalOperand(inst: Inst)
  {
    exists k :: 0 <= k < |inst.operands| && inst.operands[k].GlobalVar?
  }

  predicate HasArithGepOperand(inst: Inst)
  {
    exists k :: 0 <= k < |inst.operands| && inst.operands[k].GepRef? && IsArithGep(inst.operands[k].gep)
  }

  predicate IsReinterpretCast(inst: Inst)
  {
    inst.op == Cast(IntToPtr) || inst.op == Cast(PtrToInt)
  }

  /** Evidence found on entering a function, before its first instruction. */
  ghost predicate EntryHit(a: Analysis, f: Function)
  {
    a == PurityPass && !f.readOnly
  }

  /** Evidence one instruction gives without descending into any callee. */
  ghost predicate InstHit(a: Analysis, prog: Program, inst: Inst)
  {
    match a
    case PurityPass =>
      HasGlobalOperand(inst) || inst.mayThrow || !inst.mayReturn || IsBoundaryCall(inst)
    case PointerArithmeticPass =>
      HasArithGepOperand(inst)
    case TypeCastsPass =>
      IsReinterpretCast(inst)
    case DynamicMemoryPass =>
      JniMem(inst) || (NonBoundaryCallee(prog, inst).Some? && DynMem(NonBoundaryCallee(prog, inst).value))
  }

  /** The walker's answer for function `f` entered with history `h`. */
  ghost function Evidence(a: Analysis, prog: Program, f: string, h: set<string>): bool
    requires f in prog
    decreases Measure(prog, f, h), 1, 0
  {
    EntryHit(a, prog[f]) || ScanFrom(a, prog, f, 0, h)
  }

  /** The walker's loop from instruction `i` on, with the caller's current history copy `h`. */
  ghost function ScanFrom(a: Analysis, prog: Program, f: string, i: nat, h: set<string>): bool
    requires f in prog && i <= |Body(prog[f])|
    decreases Measure(prog, f, h), 0, |Body(prog[f])| - i
  {
    if i == |Body(prog[f])| then false
    else
      var inst := Body(prog[f])[i];
      if InstHit(a, prog, inst) then true
      else match NonBoundaryCallee(prog, inst)
        case Some(g) =>
          if g !in h then
            MeasureDrops(prog, f, g, h);
            MeasureKeeps(prog, f, h);
            Evidence(a, prog, g, h + {f}) || ScanFrom(a, prog, f, i + 1, h + {f})
          else ScanFrom(a, prog, f, i + 1, h)
        case None => ScanFrom(a, prog, f, i + 1, h)
  }

  /** `functionalPurity`'s answer: no impure operation was found. */
  ghost predicate IsPure(prog: Program, f: string, h: set<string>)
    requires f in prog
  {
    !Evidence(PurityPass, prog, f, h)
  }
}
