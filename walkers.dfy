/**
 * The four walkers as the source writes them: a loop over the function's
 * instructions with early returns, a local copy `h` of the history that
 * receives the caller's name before each descent, and a recursive call for
 * each descent. Each is proved to compute the walk specified in `Walk`.
 */
module Walkers {
  import opened Ir
  import opened Classify
  import opened Walk

  /** `functionalPurity`: true when no impure operation is reachable. */
  method FunctionalPurity(prog: Program, name: string, hist: set<string>) returns (pure: bool)
    requires name in prog
    ensures pure == IsPure(prog, name, hist)
    decreases Measure(prog, name, hist)
  {
    var f := prog[name];
    if !f.readOnly {
      return false;
    }
    var body := Body(f);
    var h := hist;
    var i := 0;
    while i < |body|
      invariant i <= |body|
      invariant h == hist || h == hist + {name}
      invariant ScanFrom(PurityPass, prog, name, i, h) == ScanFrom(PurityPass, prog, name, 0, hist)
    {
      var inst := body[i];
      var k := 0;
      while k < |inst.operands|
        invariant k <= |inst.operands|
        invariant forall j :: 0 <= j < k ==> !inst.operands[j].GlobalVar?
      {
        if inst.operands[k].GlobalVar? {
          return false;
        }
        k := k + 1;
      }
      if inst.mayThrow || !inst.mayReturn {
        return false;
      }
      if inst.op.Call? {
        if JavaCall(inst.op.firstArg) {
          return false;
        }
        var callee := inst.op.callee;
        if callee.Some? && callee.value in prog && callee.value !in h {
          MeasureDrops(prog, name, callee.value, h);
          MeasureKeeps(prog, name, hist);
          h := h + {name};
          var calleePure := FunctionalPurity(prog, callee.value, h);
          if !calleePure {
            return false;
          }
        }
      }
      i := i + 1;
    }
    return true;
  }

  /** `pointerArithmetic`: true when a user of an arithmetic GEP is reachable. */
  method PointerArithmetic(prog: Program, name: string, hist: set<string>) returns (found: bool)
    requires name in prog
    ensures found == Evidence(PointerArithmeticPass, prog, name, hist)
    decreases Measure(prog, name, hist)
  {
    var body := Body(prog[name]);
    var h := hist;
    var i := 0;
    while i < |body|
      invariant i <= |body|
      invariant h == hist || h == hist + {name}
      invariant ScanFrom(PointerArithmeticPass, prog, name, i, h) == ScanFrom(PointerArithmeticPass, prog, name, 0, hist)
    {
      var inst := body[i];
      var k := 0;
      while k < |inst.operands|
        invariant k <= |inst.operands|
        invariant forall j :: 0 <= j < k ==> !(inst.operands[j].GepRef? && IsArithGep(inst.operands[j].gep))
      {
        var v := inst.operands[k];
        if v.GepRef? && IsArithGep(v.gep) {
          return true;
        }
        k := k + 1;
      }
      if inst.op.Call? && !JavaCall(inst.op.firstArg) {
        var callee := inst.op.callee;
        if callee.Some? && callee.value in prog && callee.value !in h {
          MeasureDrops(prog, name, callee.value, h);
          MeasureKeeps(prog, name, hist);
          h := h + {name};
          var calleeFound := PointerArithmetic(prog, callee.value, h);
          if calleeFound {
            return true;
          }
        }
      }
      i := i + 1;
    }
    return false;
  }

  /** `typeCasts`: true when an `inttoptr` or `ptrtoint` cast is reachable. */
  method TypeCasts(prog: Program, name: string, hist: set<string>) returns (found: bool)
    requires name in prog
    ensures found == Evidence(TypeCastsPass, prog, name, hist)
    decreases Measure(prog, name, hist)
  {
    var body := Body(prog[name]);
    var h := hist;
    var i := 0;
    while i < |body|
      invariant i <= |body|
      invariant h == hist || h == hist + {name}
      invariant ScanFrom(TypeCastsPass, prog, name, i, h) == ScanFrom(TypeCastsPass, prog, name, 0, hist)
    {
      var inst := body[i];
      if inst.op.Cast? && (inst.op.kind == IntToPtr || inst.op.kind == PtrToInt) {
        return true;
      }
      if inst.op.Call? && !JavaCall(inst.op.firstArg) {
        var callee := inst.op.callee;
        if callee.Some? && callee.value in prog && callee.value !in h {
          MeasureDrops(prog, name, callee.value, h);
          MeasureKeeps(prog, name, hist);
          h := h + {name};
          var calleeFound := TypeCasts(prog, callee.value, h);
          if calleeFound {
            return true;
          }
        }
      }
      i := i + 1;
    }
    return false;
  }

  /**
   * `dynamicMemory`: true when a JNI memory slot is located or an allocator is
   * called, here or in a reachable function. The allocator test on a resolved
   * callee comes before the history test.
   */
  method DynamicMemory(prog: Program, name: string, hist: set<string>) returns (found: bool)
    requires name in prog
    ensures found == Evidence(DynamicMemoryPass, prog, name, hist)
    decreases Measure(prog, name, hist)
  {
    var body := Body(prog[name]);
    var h := hist;
    var i := 0;
    while i < |body|
      invariant i <= |body|
      invariant h == hist || h == hist + {name}
      invariant ScanFrom(DynamicMemoryPass, prog, name, i, h) == ScanFrom(DynamicMemoryPass, prog, name, 0, hist)
    {
      var inst := body[i];
      if JniMem(inst) {
        return true;
      }
      if inst.op.Call? && !JavaCall(inst.op.firstArg) {
        var callee := inst.op.callee;
        if callee.Some? && callee.value in prog {
          var allocator := IsDynMem(callee.value);
          if allocator {
            return true;
          } else if callee.value !in h {
            MeasureDrops(prog, name, callee.value, h);
            MeasureKeeps(prog, name, hist);
            h := h + {name};
            var calleeFound := DynamicMemory(prog, callee.value, h);
            if calleeFound {
              return true;
            }
          }
        }
      }
      i := i + 1;
    }
    return false;
  }

  /** Runs the walker of analysis `a`; `found` is the negation of purity for `PurityPass`. */
  method RunWalker(a: Analysis, prog: Program, name: string, hist: set<string>) returns (found: bool)
    requires name in prog
    ensures found == Evidence(a, prog, name, hist)
  {
    match a
    case PurityPass =>
      var pure := FunctionalPurity(prog, name, hist);
      found := !pure;
    case PointerArithmeticPass =>
      found := PointerArithmetic(prog, name, hist);
    case TypeCastsPass =>
      found := TypeCasts(prog, name, hist);
    case DynamicMemoryPass =>
      found := DynamicMemory(prog, name, hist);
  }
}
