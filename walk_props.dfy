/**
 * What the walks compute. The central fact is `WalkIsReachability`: a walker
 * reports evidence for `f` under history `H` exactly when some chain of
 * resolved, non-boundary `call`s leads from `f`, never re-entering a name of
 * `H`, to a function that holds evidence itself. The per-call history copies
 * therefore never hide evidence that a reachable function holds: skipping a
 * name already in the history only skips re-entering a function whose own scan
 * is still in progress.
 */
module WalkProps {
  import opened Ir
  import opened Classify
  import opened Walk

  /** `f` has a `call` that the walkers may descend into, resolving to `g`. */
  ghost predicate Edge(prog: Program, f: string, g: string)
  {
    f in prog && g in prog &&
    exists i :: 0 <= i < |Body(prog[f])| && NonBoundaryCallee(prog, Body(prog[f])[i]) == Some(g)
  }

  /** `f` itself holds evidence: on entry or in one of its instructions. */
  ghost predicate LocalEvidence(a: Analysis, prog: Program, f: string)
  {
    f in prog &&
    (EntryHit(a, prog[f]) || exists i :: 0 <= i < |Body(prog[f])| && InstHit(a, prog, Body(prog[f])[i]))
  }

  ghost predicate IsPath(prog: Program, p: seq<string>)
  {
    |p| >= 1 &&
    (forall k :: 0 <= k < |p| ==> p[k] in prog) &&
    (forall k :: 0 <= k < |p| - 1 ==> Edge(prog, p[k], p[k + 1]))
  }

  /** No function entered after the first is in `H`. */
  ghost predicate Avoids(p: seq<string>, H: set<string>)
  {
    forall k :: 1 <= k < |p| ==> p[k] !in H
  }

  ghost predicate Simple(p: seq<string>)
  {
    forall i, j :: 0 <= i < j < |p| ==> p[i] != p[j]
  }

  /** A call chain from `f`, avoiding `H`, ending at a function with evidence. */
  ghost predicate EvidencePath(a: Analysis, prog: Program, f: string, H: set<string>, p: seq<string>)
  {
    IsPath(prog, p) && p[0] == f && Avoids(p, H) && LocalEvidence(a, prog, p[|p| - 1])
  }

  // ---------------------------------------------------------------------------
  // From a walk that finds evidence to a call chain.

  lemma {:induction false} EvidenceHasPath(a: Analysis, prog: Program, f: string, H: set<string>)
    requires f in prog && Evidence(a, prog, f, H)
    ensures exists p :: EvidencePath(a, prog, f, H, p)
    decreases Measure(prog, f, H), 1, 0
  {
    if EntryHit(a, prog[f]) {
      assert EvidencePath(a, prog, f, H, [f]);
    } else {
      ScanHasPath(a, prog, f, 0, H, H);
    }
  }

  lemma {:induction false} ScanHasPath(a: Analysis, prog: Program, f: string, i: nat, H: set<string>, h: set<string>)
    requires f in prog && i <= |Body(prog[f])|
    requires h == H || h == H + {f}
    requires ScanFrom(a, prog, f, i, h)
    ensures exists p :: EvidencePath(a, prog, f, H, p)
    decreases Measure(prog, f, h), 0, |Body(prog[f])| - i
  {
    var inst := Body(prog[f])[i];
    if InstHit(a, prog, inst) {
      assert LocalEvidence(a, prog, f);
      assert EvidencePath(a, prog, f, H, [f]);
    } else {
      match NonBoundaryCallee(prog, inst)
      case Some(g) =>
        if g !in h {
          MeasureDrops(prog, f, g, h);
          MeasureKeeps(prog, f, h);
          if Evidence(a, prog, g, h + {f}) {
            EvidenceHasPath(a, prog, g, h + {f});
            var q :| EvidencePath(a, prog, g, h + {f}, q);
            assert Edge(prog, f, g);
            assert h + {f} == H + {f};
            PathCons(a, prog, f, g, H, q);
          } else {
            ScanHasPath(a, prog, f, i + 1, H, h + {f});
          }
        } else {
          ScanHasPath(a, prog, f, i + 1, H, h);
        }
      case None =>
        ScanHasPath(a, prog, f, i + 1, H, h);
    }
  }

  // ---------------------------------------------------------------------------
  // From a simple call chain to a walk that finds evidence.

  /** Instruction `inst` of `f` makes the walk of `f` under `H` report evidence. */
  ghost predicate Trigger(a: Analysis, prog: Program, f: string, H: set<string>, inst: Inst)
  {
    InstHit(a, prog, inst) ||
    (NonBoundaryCallee(prog, inst).Some? && NonBoundaryCallee(prog, inst).value !in H + {f}
     && Evidence(a, prog, NonBoundaryCallee(prog, inst).value, H + {f}))
  }

  /** The scan reaches instruction `j` (or stops earlier with evidence) and reports evidence. */
  lemma {:induction false} ScanReaches(a: Analysis, prog: Program, f: string, i: nat, j: nat, H: set<string>, h: set<string>)
    requires f in prog && i <= j < |Body(prog[f])|
    requires h == H || h == H + {f}
    requires Trigger(a, prog, f, H, Body(prog[f])[j])
    ensures ScanFrom(a, prog, f, i, h)
    decreases j - i
  {
    var inst := Body(prog[f])[i];
    if !InstHit(a, prog, inst) {
      match NonBoundaryCallee(prog, inst)
      case Some(g) =>
        if g !in h {
          assert h + {f} == H + {f};
          if i < j {
            ScanReaches(a, prog, f, i + 1, j, H, h + {f});
          }
        } else {
          ScanReaches(a, prog, f, i + 1, j, H, h);
        }
      case None =>
        ScanReaches(a, prog, f, i + 1, j, H, h);
    }
  }

  lemma {:induction false} SimplePathGivesEvidence(a: Analysis, prog: Program, f: string, H: set<string>, p: seq<string>)
    requires EvidencePath(a, prog, f, H, p) && Simple(p)
    ensures f in prog && Evidence(a, prog, f, H)
    decreases |p|
  {
    if |p| == 1 {
      if !EntryHit(a, prog[f]) {
        var i :| 0 <= i < |Body(prog[f])| && InstHit(a, prog, Body(prog[f])[i]);
        ScanReaches(a, prog, f, 0, i, H, H);
      }
    } else {
      var g := p[1];
      var rest := p[1..];
      assert forall k :: 0 <= k < |rest| ==> rest[k] == p[k + 1];
      assert Avoids(rest, H + {f});
      assert EvidencePath(a, prog, g, H + {f}, rest);
      SimplePathGivesEvidence(a, prog, g, H + {f}, rest);
      assert Edge(prog, f, g);
      var i :| 0 <= i < |Body(prog[f])| && NonBoundaryCallee(prog, Body(prog[f])[i]) == Some(g);
      assert g != f;
      ScanReaches(a, prog, f, 0, i, H, H);
    }
  }

  /** Cutting out the loop between two visits of the same name keeps an evidence chain. */
  /** Cutting out the stretch between two visits of the same function leaves a call chain. */
  lemma CutIsPath(prog: Program, p: seq<string>, i: int, j: int)
    requires IsPath(prog, p) && 0 <= i < j < |p| && p[i] == p[j]
    ensures IsPath(prog, p[..i] + p[j..])
  {
    var q := p[..i] + p[j..];
    assert forall k :: 0 <= k < i ==> q[k] == p[k];
    assert forall k :: i <= k < |q| ==> q[k] == p[k + j - i];
    forall k | 0 <= k < |q| - 1 ensures Edge(prog, q[k], q[k + 1]) {
      if k + 1 < i {
        assert Edge(prog, p[k], p[k + 1]);
      } else if k + 1 == i {
        assert Edge(prog, p[k], p[k + 1]);
      } else {
        assert Edge(prog, p[k + j - i], p[k + j - i + 1]);
      }
    }
  }

  lemma {:induction false} ShortenPath(a: Analysis, prog: Program, f: string, H: set<string>, p: seq<string>)
    requires EvidencePath(a, prog, f, H, p)
    ensures exists q :: EvidencePath(a, prog, f, H, q) && Simple(q)
    decreases |p|
  {
    if !Simple(p) {
      var i, j :| 0 <= i < j < |p| && p[i] == p[j];
      var q := p[..i] + p[j..];
      assert |q| == |p| - (j - i);
      assert forall k :: 0 <= k < i ==> q[k] == p[k];
      assert forall k :: i <= k < |q| ==> q[k] == p[k + j - i];
      assert q[0] == f;
      assert q[|q| - 1] == p[|p| - 1];
      CutIsPath(prog, p, i, j);
      assert EvidencePath(a, prog, f, H, q);
      ShortenPath(a, prog, f, H, q);
    }
  }

  // ---------------------------------------------------------------------------
  // The characterisations.

  /**
   * A walker reports evidence for `f` under history `H` exactly when a call
   * chain from `f` that never re-enters a name of `H` reaches a function
   * holding evidence itself.
   */
  lemma WalkIsReachability(a: Analysis, prog: Program, f: string, H: set<string>)
    requires f in prog
    ensures Evidence(a, prog, f, H) <==> exists p :: EvidencePath(a, prog, f, H, p)
  {
    if Evidence(a, prog, f, H) {
      EvidenceHasPath(a, prog, f, H);
    }
    if exists p :: EvidencePath(a, prog, f, H, p) {
      var p :| EvidencePath(a, prog, f, H, p);
      ShortenPath(a, prog, f, H, p);
      var q :| EvidencePath(a, prog, f, H, q) && Simple(q);
      SimplePathGivesEvidence(a, prog, f, H, q);
    }
  }

  /** `f` reaches a function holding evidence through descended-into calls. */
  ghost predicate ReachesEvidence(a: Analysis, prog: Program, f: string)
  {
    exists p :: IsPath(prog, p) && p[0] == f && LocalEvidence(a, prog, p[|p| - 1])
  }

  /**
   * From the empty history the driver uses, a walker's answer is plain
   * reachability: no evidence on a cycle or on a second path is ever missed.
   */
  lemma FromEmptyHistory(a: Analysis, prog: Program, f: string)
    requires f in prog
    ensures Evidence(a, prog, f, {}) <==> ReachesEvidence(a, prog, f)
  {
    WalkIsReachability(a, prog, f, {});
    if ReachesEvidence(a, prog, f) {
      var p :| IsPath(prog, p) && p[0] == f && LocalEvidence(a, prog, p[|p| - 1]);
      assert EvidencePath(a, prog, f, {}, p);
    }
  }

  /** A larger history can only hide evidence, never create it. */
  lemma HistoryOnlyHides(a: Analysis, prog: Program, f: string, H1: set<string>, H2: set<string>)
    requires f in prog && H1 <= H2
    ensures Evidence(a, prog, f, H2) ==> Evidence(a, prog, f, H1)
  {
    WalkIsReachability(a, prog, f, H2);
    WalkIsReachability(a, prog, f, H1);
    if Evidence(a, prog, f, H2) {
      var p :| EvidencePath(a, prog, f, H2, p);
      assert EvidencePath(a, prog, f, H1, p);
    }
  }

  /** A walk with evidence either holds it locally or gets it from a callee it descends into. */
  lemma UnfoldSound(a: Analysis, prog: Program, f: string, H: set<string>)
    requires f in prog && Evidence(a, prog, f, H) && !LocalEvidence(a, prog, f)
    ensures exists g :: Edge(prog, f, g) && g !in H && Evidence(a, prog, g, H + {f})
  {
    WalkIsReachability(a, prog, f, H);
    var p0 :| EvidencePath(a, prog, f, H, p0);
    ShortenPath(a, prog, f, H, p0);
    var p :| EvidencePath(a, prog, f, H, p) && Simple(p);
    var g := p[1];
    var rest := p[1..];
    assert forall k :: 0 <= k < |rest| ==> rest[k] == p[k + 1];
    assert EvidencePath(a, prog, g, H + {f}, rest);
    WalkIsReachability(a, prog, g, H + {f});
  }

  /** A call to `g` in front of a chain from `g` is a chain from the caller. */
  lemma PathCons(a: Analysis, prog: Program, f: string, g: string, H: set<string>, q: seq<string>)
    requires Edge(prog, f, g) && g !in H && EvidencePath(a, prog, g, H + {f}, q)
    ensures EvidencePath(a, prog, f, H, [f] + q)
  {
    var p := [f] + q;
    assert forall k :: 1 <= k < |p| ==> p[k] == q[k - 1];
  }

  /** Evidence of a callee the walk descends into is evidence of the caller. */
  lemma CalleeEvidencePropagates(a: Analysis, prog: Program, f: string, g: string, H: set<string>)
    requires Edge(prog, f, g) && g !in H && Evidence(a, prog, g, H + {f})
    ensures Evidence(a, prog, f, H)
  {
    WalkIsReachability(a, prog, g, H + {f});
    var q :| EvidencePath(a, prog, g, H + {f}, q);
    PathCons(a, prog, f, g, H, q);
    WalkIsReachability(a, prog, f, H);
  }

  /**
   * One level of the walk: evidence in `f` itself, or in a callee `g` it
   * descends into (not in `H`), walked with `f` added to the history.
   */
  lemma Unfold(a: Analysis, prog: Program, f: string, H: set<string>)
    requires f in prog
    ensures Evidence(a, prog, f, H) <==>
      LocalEvidence(a, prog, f) || exists g :: Edge(prog, f, g) && g !in H && Evidence(a, prog, g, H + {f})
  {
    if Evidence(a, prog, f, H) && !LocalEvidence(a, prog, f) {
      UnfoldSound(a, prog, f, H);
    }
    if LocalEvidence(a, prog, f) {
      assert EvidencePath(a, prog, f, H, [f]);
      WalkIsReachability(a, prog, f, H);
    }
    if exists g :: Edge(prog, f, g) && g !in H && Evidence(a, prog, g, H + {f}) {
      var g :| Edge(prog, f, g) && g !in H && Evidence(a, prog, g, H + {f});
      CalleeEvidencePropagates(a, prog, f, g, H);
    }
  }

  // ---------------------------------------------------------------------------
  // The four walkers, one level at a time, in the source's own terms.

  /**
   * `functionalPurity` answers "pure" exactly when the function only reads
   * memory, no instruction has a global-variable operand, may throw, may not
   * return or is a JNI boundary call, and every callee it descends into is pure
   * (walked with the caller's name added to the history).
   */
  lemma PurityIff(prog: Program, f: string, H: set<string>)
    requires f in prog
    ensures IsPure(prog, f, H) <==>
      prog[f].readOnly
      && (forall i :: 0 <= i < |Body(prog[f])| ==>
            var inst := Body(prog[f])[i];
            !HasGlobalOperand(inst) && !inst.mayThrow && inst.mayReturn && !IsBoundaryCall(inst))
      && (forall g :: Edge(prog, f, g) && g !in H ==> IsPure(prog, g, H + {f}))
  {
    Unfold(PurityPass, prog, f, H);
  }

  /**
   * `pointerArithmetic` finds arithmetic exactly when some instruction uses a
   * GEP with a non-zero index on a base that leads to no struct, or a callee
   * it descends into does.
   */
  lemma PointerArithmeticIff(prog: Program, f: string, H: set<string>)
    requires f in prog
    ensures Evidence(PointerArithmeticPass, prog, f, H) <==>
      (exists i, k :: 0 <= i < |Body(prog[f])| && 0 <= k < |Body(prog[f])[i].operands|
         && Body(prog[f])[i].operands[k].GepRef?
         && !Body(prog[f])[i].operands[k].gep.AllZeroIndices()
         && !PointsToStruct(Body(prog[f])[i].operands[k].gep.base))
      || (exists g :: Edge(prog, f, g) && g !in H && Evidence(PointerArithmeticPass, prog, g, H + {f}))
  {
    Unfold(PointerArithmeticPass, prog, f, H);
    if LocalEvidence(PointerArithmeticPass, prog, f) {
      var i :| 0 <= i < |Body(prog[f])| && InstHit(PointerArithmeticPass, prog, Body(prog[f])[i]);
      var k :| 0 <= k < |Body(prog[f])[i].operands| && Body(prog[f])[i].operands[k].GepRef?
               && IsArithGep(Body(prog[f])[i].operands[k].gep);
    }
  }

  /**
   * `typeCasts` finds a cast exactly when some instruction is an `inttoptr` or
   * `ptrtoint`, or a callee it descends into has one. Other casts count for nothing.
   */
  lemma TypeCastsIff(prog: Program, f: string, H: set<string>)
    requires f in prog
    ensures Evidence(TypeCastsPass, prog, f, H) <==>
      (exists i :: 0 <= i < |Body(prog[f])| && Body(prog[f])[i].op.Cast?
         && Body(prog[f])[i].op.kind in {IntToPtr, PtrToInt})
      || (exists g :: Edge(prog, f, g) && g !in H && Evidence(TypeCastsPass, prog, g, H + {f}))
  {
    Unfold(TypeCastsPass, prog, f, H);
  }

  /**
   * `dynamicMemory` finds an operation exactly when some instruction locates a
   * JNI memory slot or calls an allocator symbol through a resolved,
   * non-boundary call, or a callee it descends into does.
   */
  lemma DynamicMemoryIff(prog: Program, f: string, H: set<string>)
    requires f in prog
    ensures Evidence(DynamicMemoryPass, prog, f, H) <==>
      (exists i :: 0 <= i < |Body(prog[f])|
         && (JniMem(Body(prog[f])[i])
             || (NonBoundaryCallee(prog, Body(prog[f])[i]).Some?
                 && NonBoundaryCallee(prog, Body(prog[f])[i]).value in AllocatorSymbols)))
      || (exists g :: Edge(prog, f, g) && g !in H && Evidence(DynamicMemoryPass, prog, g, H + {f}))
  {
    Unfold(DynamicMemoryPass, prog, f, H);
  }

  /**
   * A resolved, non-boundary call to an allocator symbol is found whatever the
   * history holds, the callee's own name included: the symbol test comes
   * before the history test.
   */
  lemma AllocatorCallAlwaysFound(prog: Program, f: string, H: set<string>, i: nat)
    requires f in prog && i < |Body(prog[f])|
    requires Body(prog[f])[i].op.Call? && !JavaCall(Body(prog[f])[i].op.firstArg)
    requires Body(prog[f])[i].op.callee.Some? && Body(prog[f])[i].op.callee.value in prog
    requires DynMem(Body(prog[f])[i].op.callee.value)
    ensures Evidence(DynamicMemoryPass, prog, f, H)
  {
    assert InstHit(DynamicMemoryPass, prog, Body(prog[f])[i]);
    Unfold(DynamicMemoryPass, prog, f, H);
  }

  /**
   * A declaration has no instructions: it is pure exactly when it only reads
   * memory, and the other three walkers find nothing in it.
   */
  lemma DeclarationResult(a: Analysis, prog: Program, f: string, H: set<string>)
    requires f in prog && prog[f].Declaration?
    ensures Evidence(a, prog, f, H) <==> (a == PurityPass && !prog[f].readOnly)
  {
  }
}
