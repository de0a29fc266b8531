/**
 * The `runOnModule` entry points: every function of the module that has a
 * body and whose name starts with "Java_" is analysed from an empty history,
 * in module order, and gets one line in the log. The single-analysis passes
 * write a sentence; `AllPasses` writes the four flags.
 */
module Driver {
  import opened Ir
  import opened Text
  import opened Walk
  import opened Walkers

  /** `!isDeclaration() && getName().find("Java_") == 0`: a definition whose name begins with "Java_". */
  function IsEntry(prog: Program, name: string): (r: bool)
    requires name in prog
    ensures r <==> prog[name].Definition? && StartsWith(name, "Java_")
  {
    FindSpec(name, "Java_");
    var at := Find(name, "Java_");
    assert StartsWith(name, "Java_") <==> OccursAt(name, "Java_", 0);
    prog[name].Definition? && at == 0
  }

  /** The module's functions, in module order, that are analysed. */
  ghost function Entries(prog: Program, order: seq<string>): (r: seq<string>)
    requires forall k :: 0 <= k < |order| ==> order[k] in prog
    ensures forall k :: 0 <= k < |r| ==> r[k] in prog
    ensures |r| <= |order|
  {
    if order == [] then []
    else
      var last := order[|order| - 1];
      Entries(prog, order[..|order| - 1]) + (if IsEntry(prog, last) then [last] else [])
  }

  /** The analysed functions are exactly the entries among the names of `order`. */
  lemma {:induction false} EntriesMembers(prog: Program, order: seq<string>)
    requires forall k :: 0 <= k < |order| ==> order[k] in prog
    ensures forall n :: n in Entries(prog, order) <==> n in order && IsEntry(prog, n)
  {
    if order != [] {
      var init := order[..|order| - 1];
      EntriesMembers(prog, init);
      assert order == init + [order[|order| - 1]];
    }
  }

  /** Each function of the module appears exactly once in the module's order. */
  ghost predicate ModuleOrder(prog: Program, order: seq<string>)
  {
    (forall n :: n in prog <==> n in order) && NoRepeats(order)
  }

  ghost predicate NoRepeats(s: seq<string>)
  {
    forall i, j :: 0 <= i < j < |s| ==> s[i] != s[j]
  }

  /** An order without repeats yields analysed functions without repeats. */
  lemma {:induction false} EntriesNoRepeats(prog: Program, order: seq<string>)
    requires forall k :: 0 <= k < |order| ==> order[k] in prog
    requires NoRepeats(order)
    ensures NoRepeats(Entries(prog, order))
  {
    if order != [] {
      var init := order[..|order| - 1];
      var last := order[|order| - 1];
      assert NoRepeats(init);
      EntriesNoRepeats(prog, init);
      EntriesMembers(prog, init);
      assert last !in init by {
        forall k | 0 <= k < |init| ensures init[k] != last {
          assert order[k] != order[|order| - 1];
        }
      }
    }
  }

  /**
   * Over the whole module in its own order, the analysed functions are
   * exactly its definitions whose names begin with "Java_", each listed once.
   */
  lemma EntriesOfModule(prog: Program, order: seq<string>)
    requires ModuleOrder(prog, order)
    ensures forall n :: n in Entries(prog, order) <==> n in prog && IsEntry(prog, n)
    ensures NoRepeats(Entries(prog, order))
  {
    EntriesMembers(prog, order);
    EntriesNoRepeats(prog, order);
  }

  /** The sentence each single-analysis pass appends after the function name. */
  function Verdict(a: Analysis, found: bool): string
  {
    match a
    case PurityPass => if found then " is impure" else " is pure"
    case PointerArithmeticPass => if found then " has pointer arithmetic" else " has no pointer arithmetic"
    case TypeCastsPass => if found then " has typecasts" else " has no typecasts"
    case DynamicMemoryPass =>
      if found then " has dynamic memory allocation" else " has no dynamic memory allocation"
  }

  /** Reads a single-analysis log line back into the function name and the verdict. */
  function ReadRow(a: Analysis, row: string): Option<(string, bool)>
  {
    var yes := Verdict(a, true) + "\n";
    var no := Verdict(a, false) + "\n";
    if EndsWith(row, yes) then Some((row[..|row| - |yes|], true))
    else if EndsWith(row, no) then Some((row[..|row| - |no|], false))
    else None
  }

  /** Neither sentence of a pass is a suffix of the other. */
  lemma VerdictsDistinct(a: Analysis)
    ensures !EndsWith(Verdict(a, true) + "\n", Verdict(a, false) + "\n")
    ensures !EndsWith(Verdict(a, false) + "\n", Verdict(a, true) + "\n")
  {
    var yes := Verdict(a, true) + "\n";
    var no := Verdict(a, false) + "\n";
    if a == PurityPass {
      assert yes[|yes| - |no|] != no[0];
    } else {
      assert no[|no| - |yes|] != yes[0];
    }
  }

  /** A single-analysis log line: the function name, the pass's sentence, a line end. */
  function Row(a: Analysis, name: string, found: bool): (r: string)
    ensures |r| > |name| + 1 && r[..|name|] == name && r[|r| - 1] == '\n'
  {
    var row := name + Verdict(a, found) + "\n";
    assert row[..|name|] == name;
    row
  }

  /** A log line reads back to the function name and the verdict it was written for. */
  lemma RowRoundTrip(a: Analysis, name: string, found: bool)
    ensures ReadRow(a, Row(a, name, found)) == Some((name, found))
  {
    var yes := Verdict(a, true) + "\n";
    var no := Verdict(a, false) + "\n";
    var row := Row(a, name, found);
    assert row == name + (Verdict(a, found) + "\n");
    VerdictsDistinct(a);
    if found {
      assert row[..|row| - |yes|] == name;
    } else {
      SuffixOfConcat(name, no, yes);
      assert row[..|row| - |no|] == name;
    }
  }

  /** A flag as the line writes it: `1` for true, `0` for false. */
  function Flag(b: bool): char
  {
    if b then '1' else '0'
  }

  predicate IsFlag(c: char)
  {
    c == '0' || c == '1'
  }

  /**
   * Reads an `AllPasses` line back: name, pure, arithmetic, casts, dynamic
   * memory. The line must end in `" f f f f\n"` with a `0`/`1` flag at each `f`
   * and a single space before the first flag and on each side of the others.
   */
  function ReadAllRow(row: string): Option<(string, bool, bool, bool, bool)>
  {
    if |row| < 12 then None
    else
      var n := |row| - 12;
      if row[n] == ' ' && row[n + 2] == ' ' && row[n + 3] == ' ' && row[n + 5] == ' '
        && row[n + 6] == ' ' && row[n + 8] == ' ' && row[n + 9] == ' ' && row[n + 11] == '\n'
        && IsFlag(row[n + 1]) && IsFlag(row[n + 4]) && IsFlag(row[n + 7]) && IsFlag(row[n + 10])
      then Some((row[..n], row[n + 1] == '0', row[n + 4] == '1', row[n + 7] == '1', row[n + 10] == '1'))
      else None
  }

  /**
   * The `AllPasses` line: the name, then the purity flag (" 0 " when PURE,
   * " 1 " when impure), then " 1 "/" 0 " for pointer arithmetic, " 1 "/" 0 "
   * for type casts, " 1"/" 0" for dynamic memory, each 1 when found, and a
   * line end. It reads back to the name and all four flags.
   */
  function AllRow(name: string, pure: bool, arith: bool, casts: bool, dynMem: bool): (r: string)
    ensures ReadAllRow(r) == Some((name, pure, arith, casts, dynMem))
  {
    var row := name + [' ', Flag(!pure), ' ', ' ', Flag(arith), ' ', ' ', Flag(casts), ' ', ' ', Flag(dynMem), '\n'];
    assert row[..|name|] == name;
    row
  }

  /** A line that reads back to a name and four flags is exactly the line written for them. */
  lemma ReadAllRowExact(row: string, name: string, pure: bool, arith: bool, casts: bool, dynMem: bool)
    requires ReadAllRow(row) == Some((name, pure, arith, casts, dynMem))
    ensures row == AllRow(name, pure, arith, casts, dynMem)
  {
  }

  /** The line a single-analysis pass writes for one analysed function, its walk from an empty history. */
  ghost function ExpectedRow(a: Analysis, prog: Program, n: string): string
    requires n in prog
  {
    Row(a, n, Evidence(a, prog, n, {}))
  }

  /** The lines a single-analysis pass writes for `names`. */
  ghost function Log(a: Analysis, prog: Program, names: seq<string>): (r: seq<string>)
    requires forall k :: 0 <= k < |names| ==> names[k] in prog
    ensures |r| == |names|
  {
    if names == [] then []
    else Log(a, prog, names[..|names| - 1]) + [ExpectedRow(a, prog, names[|names| - 1])]
  }

  /** Line `k` of the log is the line of the `k`-th name. */
  lemma {:induction false} LogLines(a: Analysis, prog: Program, names: seq<string>)
    requires forall k :: 0 <= k < |names| ==> names[k] in prog
    ensures forall k :: 0 <= k < |names| ==>
      Log(a, prog, names)[k] == Row(a, names[k], Evidence(a, prog, names[k], {}))
  {
    if names != [] {
      var init := names[..|names| - 1];
      LogLines(a, prog, init);
      assert Log(a, prog, names) == Log(a, prog, init) + [ExpectedRow(a, prog, names[|names| - 1])];
      forall k | 0 <= k < |names| - 1
        ensures Log(a, prog, names)[k] == Row(a, names[k], Evidence(a, prog, names[k], {}))
      {
        assert init[k] == names[k];
      }
    }
  }

  /** One more name of the order adds it to the analysed functions exactly when it is an entry. */
  lemma EntriesStep(prog: Program, order: seq<string>, i: nat)
    requires forall k :: 0 <= k < |order| ==> order[k] in prog
    requires i < |order|
    ensures IsEntry(prog, order[i]) ==> Entries(prog, order[..i + 1]) == Entries(prog, order[..i]) + [order[i]]
    ensures !IsEntry(prog, order[i]) ==> Entries(prog, order[..i + 1]) == Entries(prog, order[..i])
  {
    assert order[..i + 1][..i] == order[..i];
    assert Entries(prog, order[..i]) + [] == Entries(prog, order[..i]);
  }

  lemma LogAppend(a: Analysis, prog: Program, names: seq<string>, n: string)
    requires forall k :: 0 <= k < |names| ==> names[k] in prog
    requires n in prog
    ensures Log(a, prog, names + [n]) == Log(a, prog, names) + [ExpectedRow(a, prog, n)]
  {
    assert (names + [n])[..|names|] == names;
  }

  /** The `AllPasses` line of one analysed function, each walk from an empty history. */
  ghost function ExpectedAllRow(prog: Program, n: string): string
    requires n in prog
  {
    AllRow(n, IsPure(prog, n, {}), Evidence(PointerArithmeticPass, prog, n, {}),
           Evidence(TypeCastsPass, prog, n, {}), Evidence(DynamicMemoryPass, prog, n, {}))
  }

  /** The lines `AllPasses` writes for `names`. */
  ghost function AllLog(prog: Program, names: seq<string>): (r: seq<string>)
    requires forall k :: 0 <= k < |names| ==> names[k] in prog
    ensures |r| == |names|
  {
    if names == [] then []
    else AllLog(prog, names[..|names| - 1]) + [ExpectedAllRow(prog, names[|names| - 1])]
  }

  /** Line `k` of the `AllPasses` log is the line of the `k`-th name. */
  lemma {:induction false} AllLogLines(prog: Program, names: seq<string>)
    requires forall k :: 0 <= k < |names| ==> names[k] in prog
    ensures forall k :: 0 <= k < |names| ==>
      var n := names[k];
      AllLog(prog, names)[k] == AllRow(n, IsPure(prog, n, {}), Evidence(PointerArithmeticPass, prog, n, {}),
                                       Evidence(TypeCastsPass, prog, n, {}), Evidence(DynamicMemoryPass, prog, n, {}))
  {
    if names != [] {
      var init := names[..|names| - 1];
      AllLogLines(prog, init);
      assert AllLog(prog, names) == AllLog(prog, init) + [ExpectedAllRow(prog, names[|names| - 1])];
    }
  }

  lemma AllLogAppend(prog: Program, names: seq<string>, n: string)
    requires forall k :: 0 <= k < |names| ==> names[k] in prog
    requires n in prog
    ensures AllLog(prog, names + [n]) == AllLog(prog, names) + [ExpectedAllRow(prog, n)]
  {
    assert (names + [n])[..|names|] == names;
  }

  /** The log line of one analysed function for analysis `a`, its walk started from an empty history. */
  method AnalyseOne(a: Analysis, prog: Program, name: string) returns (row: string)
    requires name in prog
    ensures row == ExpectedRow(a, prog, name)
  {
    var hist: set<string> := {};
    var found := RunWalker(a, prog, name, hist);
    row := Row(a, name, found);
  }

  /** The `AllPasses` line of one analysed function, each walk started from the same empty history. */
  method AnalyseAll(prog: Program, name: string) returns (row: string)
    requires name in prog
    ensures row == ExpectedAllRow(prog, name)
  {
    var hist: set<string> := {};
    var pure := FunctionalPurity(prog, name, hist);
    var arith := PointerArithmetic(prog, name, hist);
    var casts := TypeCasts(prog, name, hist);
    var dynMem := DynamicMemory(prog, name, hist);
    row := AllRow(name, pure, arith, casts, dynMem);
  }

  /**
   * `runOnModule` of the single-analysis passes: one line per analysed
   * function, in module order, each from the walker run with an empty history.
   */
  method RunOnModule(a: Analysis, prog: Program, order: seq<string>) returns (log: seq<string>)
    requires forall k :: 0 <= k < |order| ==> order[k] in prog
    ensures log == Log(a, prog, Entries(prog, order))
  {
    log := [];
    var i := 0;
    while i < |order|
      invariant i <= |order|
      invariant log == Log(a, prog, Entries(prog, order[..i]))
    {
      var name := order[i];
      ghost var before := Entries(prog, order[..i]);
      EntriesStep(prog, order, i);
      if IsEntry(prog, name) {
        var row := AnalyseOne(a, prog, name);
        LogAppend(a, prog, before, name);
        log := log + [row];
      }
      i := i + 1;
    }
    assert order[..i] == order;
  }

  /**
   * `AllPasses::runOnModule`: one line per analysed function with all four
   * flags, each walker run from the same empty history.
   */
  method RunAllPasses(prog: Program, order: seq<string>) returns (log: seq<string>)
    requires forall k :: 0 <= k < |order| ==> order[k] in prog
    ensures log == AllLog(prog, Entries(prog, order))
  {
    log := [];
    var i := 0;
    while i < |order|
      invariant i <= |order|
      invariant log == AllLog(prog, Entries(prog, order[..i]))
    {
      var name := order[i];
      ghost var before := Entries(prog, order[..i]);
      EntriesStep(prog, order, i);
      if IsEntry(prog, name) {
        var row := AnalyseAll(prog, name);
        AllLogAppend(prog, before, name);
        log := log + [row];
      }
      i := i + 1;
    }
    assert order[..i] == order;
    AllLogLines(prog, Entries(prog, order));
  }
}
