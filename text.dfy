/**
 * Substring and prefix tests on rendered names and type strings.
 * `Find(s, pat)` is `s.find(pat)`, with -1 for `npos`; `Contains(s, pat)` is
 * `s.find(pat) != std::string::npos`; `StartsWith(s, p)` is what `s.find(p) == 0`
 * decides.
 */
module Text {

  /** `pat` occurs in `s` starting at position `i`. */
  ghost predicate OccursAt(s: string, pat: string, i: int)
  {
    0 <= i && i + |pat| <= |s| && s[i..i + |pat|] == pat
  }

  predicate StartsWith(s: string, p: string)
  {
    |p| <= |s| && s[..|p|] == p
  }

  predicate EndsWith(s: string, p: string)
  {
    |p| <= |s| && s[|s| - |p|..] == p
  }

  /** A suffix `t` of `x + y` and the suffix `y` agree on their common length. */
  lemma SuffixOfConcat(x: string, y: string, t: string)
    ensures EndsWith(x + y, t) ==> if |y| <= |t| then EndsWith(t, y) else EndsWith(y, t)
  {
    if EndsWith(x + y, t) {
      if |y| <= |t| {
        assert (x + y)[|x + y| - |y|..] == y;
        assert t[|t| - |y|..] == (x + y)[|x + y| - |y|..];
      } else {
        assert (x + y)[|x + y| - |t|..] == y[|y| - |t|..];
      }
    }
  }

  /** Occurrences in `s[1..]` are the occurrences in `s` one position further on. */
  lemma OccursShift(s: string, pat: string, j: int)
    requires |s| > 0 && 0 <= j
    ensures OccursAt(s[1..], pat, j) <==> OccursAt(s, pat, j + 1)
  {
    if j + 1 + |pat| <= |s| {
      assert s[1..][j..j + |pat|] == s[j + 1..j + 1 + |pat|];
    }
  }

  /**
   * `s.find(pat)`: the position of the first occurrence of `pat` in `s`, or -1
   * (standing for `npos`) when there is none.
   */
  function Find(s: string, pat: string): int
    decreases |s|
  {
    if StartsWith(s, pat) then 0
    else if |s| == 0 then -1
    else
      var k := Find(s[1..], pat);
      if k == -1 then -1 else k + 1
  }

  /** `Find` returns -1 exactly when `pat` occurs nowhere, and otherwise its first occurrence. */
  lemma {:induction false} FindSpec(s: string, pat: string)
    ensures Find(s, pat) == -1 || OccursAt(s, pat, Find(s, pat))
    ensures Find(s, pat) == -1 <==> forall i :: !OccursAt(s, pat, i)
    ensures forall j :: 0 <= j < Find(s, pat) ==> !OccursAt(s, pat, j)
    decreases |s|
  {
    if StartsWith(s, pat) {
      assert OccursAt(s, pat, 0);
    } else if |s| == 0 {
      forall i ensures !OccursAt(s, pat, i) {
        assert |pat| > 0;
      }
    } else {
      assert !OccursAt(s, pat, 0);
      FindSpec(s[1..], pat);
      var k := Find(s[1..], pat);
      if k == -1 {
        forall i ensures !OccursAt(s, pat, i) {
          if i > 0 {
            OccursShift(s, pat, i - 1);
          }
        }
      } else {
        OccursShift(s, pat, k);
        forall j | 0 <= j < k + 1 ensures !OccursAt(s, pat, j) {
          if j > 0 {
            OccursShift(s, pat, j - 1);
          }
        }
      }
    }
  }

  /** `s.find(pat) != npos`: `pat` occurs somewhere in `s`. */
  predicate Contains(s: string, pat: string)
  {
    Find(s, pat) != -1
  }

  /** The search finds `pat` exactly when it occurs at some position. */
  lemma ContainsIff(s: string, pat: string)
    ensures Contains(s, pat) <==> exists i :: OccursAt(s, pat, i)
  {
    FindSpec(s, pat);
    var r := Find(s, pat);
    if r != -1 {
      assert OccursAt(s, pat, r);
    }
  }

  /** An occurrence survives appending text on the right. */
  lemma ContainsAppend(s: string, pat: string, t: string)
    requires Contains(s, pat)
    ensures Contains(s + t, pat)
  {
    ContainsIff(s, pat);
    var i :| OccursAt(s, pat, i);
    assert (s + t)[i..i + |pat|] == s[i..i + |pat|];
    assert OccursAt(s + t, pat, i);
    ContainsIff(s + t, pat);
  }
}
