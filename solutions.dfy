/**
 Solutions of the puzzle, and what the strategies and the search do to them.
 A solution fills every box with one digit 1-9 so that no two peers share a
 digit; it is consistent with some values when every box's digit is among that
 box's candidates. No strategy loses a consistent solution, so search answers
 `False` only when the puzzle has none.
 */
module Solutions {
  import opened Units
  import opened Candidates
  import opened Grid
  import opened EliminateStrategy
  import opened OnlyChoiceStrategy
  import opened NakedTwinsStrategy
  import opened Reduction
  import opened DepthFirstSearch

  /** Every candidate is one of the digits 1-9, as a parsed grid has it. */
  ghost predicate DigitsOnly(v: Values)
  {
    |v| == 81 && forall i, c :: 0 <= i < 81 && c in v[i] ==> c in Cols
  }

  /** A filled grid: one digit 1-9 per box, none shared by two peers. */
  ghost predicate IsSolution(s: Values)
  {
    AllSolved(s) && PeersDiffer(s) && forall i :: 0 <= i < 81 ==> s[i][0] in Cols
  }

  /** The filled grid `s` takes each box's digit from `v`'s candidates. */
  ghost predicate Consistent(s: Values, v: Values)
  {
    |s| == 81 && |v| == 81 && forall i :: 0 <= i < 81 ==> |s[i]| == 1 && s[i][0] in v[i]
  }

  /** Deleting candidates keeps the candidates digits. */
  lemma DigitsOnlyShrinks(v: Values, w: Values)
    requires DigitsOnly(v) && Shrinks(v, w)
    ensures DigitsOnly(w)
  {
    forall i | 0 <= i < 81 ensures forall c :: c in w[i] ==> c in v[i] {
      SubseqFacts(w[i], v[i]);
    }
  }

  /** Peers hold different digits. */
  lemma PeerDigits(s: Values, a: Box, b: Box)
    requires IsSolution(s) && IsPeer(a, b)
    ensures s[a][0] != s[b][0]
  {
    assert s[a] == [s[a][0]] && s[b] == [s[b][0]];
  }

  /** Two boxes of one unit are peers, so they hold different digits. */
  lemma SameUnitDiffer(s: Values, unit: seq<Box>, a: Box, b: Box)
    requires IsSolution(s) && unit in UnitList() && a in unit && b in unit && a != b
    ensures s[a][0] != s[b][0]
  {
    assert IsPeer(a, b);
    PeerDigits(s, a, b);
  }

  // Counting argument: nine boxes of a unit with different digits use all nine digits.

  lemma {:induction false} DistinctCard(t: string)
    requires forall i, j :: 0 <= i < j < |t| ==> t[i] != t[j]
    ensures |set c | c in t| == |t|
  {
    if t != [] {
      var front := t[..|t| - 1];
      DistinctCard(front);
      assert (set c | c in t) == (set c | c in front) + {t[|t| - 1]};
      assert t[|t| - 1] !in front;
    }
  }

  lemma {:induction false} SubsetCard(a: set<char>, b: set<char>)
    requires a <= b
    ensures |a| <= |b|
    decreases |a|
  {
    if a != {} {
      var x :| x in a;
      SubsetCard(a - {x}, b - {x});
    }
  }

  /** Nine different digits are all the digits. */
  lemma AllDigitsUsed(t: string, c: char)
    requires |t| == 9 && forall i, j :: 0 <= i < j < 9 ==> t[i] != t[j]
    requires forall i :: 0 <= i < 9 ==> t[i] in Cols
    requires c in Cols
    ensures c in t
  {
    DistinctCard(t);
    DistinctCard(Cols);
    var used := set d | d in t;
    var digits := set d | d in Cols;
    assert used <= digits;
    if c !in used {
      SubsetCard(used, digits - {c});
    }
  }

  /** In a solution every digit 1-9 occurs in every unit. */
  lemma UnitCovers(s: Values, u: nat, c: char)
    requires IsSolution(s) && u < |UnitList()| && c in Cols
    ensures exists j :: 0 <= j < |UnitList()[u]| && s[UnitList()[u][j]][0] == c
  {
    var unit := UnitList()[u];
    UnitSize(u);
    assert unit in UnitList();
    var t := seq(9, j requires 0 <= j < 9 => s[unit[j]][0]);
    forall i, j | 0 <= i < j < 9 ensures t[i] != t[j] {
      SameUnitDiffer(s, unit, unit[i], unit[j]);
    }
    AllDigitsUsed(t, c);
    var j :| 0 <= j < 9 && t[j] == c;
    assert s[unit[j]][0] == c;
  }

  // Eliminate

  /** A solved box's digit is not the digit of any of its peers in a solution. */
  lemma VisitKeeps(w: Values, k: Box, s: Values)
    requires |w| == 81 && IsSolution(s) && Consistent(s, w)
    ensures Consistent(s, Visit(w, k))
  {
    if |w[k]| == 1 {
      var r := Visit(w, k);
      var d := w[k][0];
      assert s[k][0] == d;
      forall i | 0 <= i < 81 ensures |s[i]| == 1 && s[i][0] in r[i] {
        assert |s[i]| == 1 && s[i][0] in w[i];
        if IsPeer(k, i) {
          PeerDigits(s, k, i);
          assert r[i] == Remove(w[i], d);
        } else {
          assert r[i] == w[i];
        }
      }
    }
  }

  lemma {:induction false} EliminateUpToKeeps(v: Values, n: nat, s: Values)
    requires |v| == 81 && n <= 81 && IsSolution(s) && Consistent(s, v)
    ensures Consistent(s, EliminateUpTo(v, n))
  {
    if n > 0 {
      EliminateUpToKeeps(v, n - 1, s);
      VisitKeeps(EliminateUpTo(v, n - 1), n - 1, s);
    }
  }

  /** Eliminate keeps every solution consistent with the values. */
  lemma EliminateKeeps(v: Values, s: Values)
    requires |v| == 81 && IsSolution(s) && Consistent(s, v)
    ensures Consistent(s, Eliminate(v))
  {
    EliminateUpToKeeps(v, 81, s);
  }

  // Only choice

  lemma {:induction false} AssignFromKeeps(w: Values, unit: seq<Box>, c: char, j: nat, k: nat)
    requires |w| == 81 && j <= k < |unit| && c in w[unit[k]]
    requires forall m :: j <= m < k ==> c !in w[unit[m]]
    ensures AssignFrom(w, unit, c, j) == w[unit[k] := [c]]
    decreases k - j
  {
    if j < k {
      AssignFromKeeps(w, unit, c, j + 1, k);
    }
  }

  lemma {:induction false} ApplyChoicesKeeps(v: Values, u: nat, nums: string, s: Values)
    requires DigitsOnly(v) && u < |UnitList()| && IsSolution(s) && Consistent(s, v)
    requires forall c :: c in nums ==> c in UnitDigits(v, UnitList()[u])
    ensures Consistent(s, ApplyChoices(v, UnitList()[u], UnitDigits(v, UnitList()[u]), nums))
  {
    var unit := UnitList()[u];
    var digits := UnitDigits(v, unit);
    if nums != [] {
      var front := nums[..|nums| - 1];
      var c := nums[|nums| - 1];
      assert forall d :: d in front ==> d in nums;
      ApplyChoicesKeeps(v, u, front, s);
      var w := ApplyChoices(v, unit, digits, front);
      ApplyChoicesSpec(v, unit, front);
      if Occurrences(digits, c) == 1 {
        var j0 := UnitDigitsSource(v, unit, c);
        UnitCovers(s, u, c);
        var k :| 0 <= k < |unit| && s[unit[k]][0] == c;
        assert c in w[unit[k]];
        assert c in v[unit[k]] by {
          if w[unit[k]] != v[unit[k]] {
            assert w[unit[k]] == [w[unit[k]][0]];
          }
        }
        forall m | 0 <= m < k ensures c !in w[unit[m]] {
          if c in w[unit[m]] {
            if w[unit[m]] != v[unit[m]] {
              assert w[unit[m]] == [w[unit[m]][0]];
            }
            CountedOnce(v, unit, c, m, k);
          }
        }
        AssignFromKeeps(w, unit, c, 0, k);
      }
    }
  }

  lemma {:induction false} OnlyChoiceUnitsKeepSolution(v: Values, n: nat, s: Values)
    requires DigitsOnly(v) && n <= |UnitList()| && IsSolution(s) && Consistent(s, v)
    ensures Consistent(s, OnlyChoiceUnits(v, UnitList()[..n]))
    ensures DigitsOnly(OnlyChoiceUnits(v, UnitList()[..n]))
  {
    var units := UnitList()[..n];
    if n > 0 {
      assert units[..n - 1] == UnitList()[..n - 1];
      OnlyChoiceUnitsKeepSolution(v, n - 1, s);
      var w := OnlyChoiceUnits(v, UnitList()[..n - 1]);
      var unit := UnitList()[n - 1];
      var digits := UnitDigits(w, unit);
      FirstOccurrencesSpec(digits);
      ApplyChoicesKeeps(w, n - 1, FirstOccurrences(digits), s);
      ApplyChoicesSpec(w, unit, FirstOccurrences(digits));
      var r := OnlyChoiceUnits(v, units);
      forall i, c | 0 <= i < 81 && c in r[i] ensures c in Cols {
        if r[i] != w[i] {
          assert r[i] == [r[i][0]];
        }
      }
    }
  }

  /** Only choice keeps every solution consistent with the values. */
  lemma OnlyChoiceKeepsSolution(v: Values, s: Values)
    requires DigitsOnly(v) && IsSolution(s) && Consistent(s, v)
    ensures Consistent(s, OnlyChoice(v))
  {
    OnlyChoiceUnitsKeepSolution(v, |UnitList()|, s);
    assert UnitList()[..|UnitList()|] == UnitList();
  }

  // Naked twins

  /** When the two kept boxes take both digits of `p`, no other box of the
      unit can, so stripping `p` from them keeps the solution. */
  lemma StripPairKeeps(w: Values, unit: seq<Box>, p: string, reserved: seq<Box>, s: Values)
    requires |w| == 81 && |p| == 2 && unit in UnitList() && IsSolution(s) && Consistent(s, w)
    requires |reserved| == 2 && reserved[0] != reserved[1]
    requires reserved[0] in unit && reserved[1] in unit
    requires s[reserved[0]][0] in p && s[reserved[1]][0] in p
    ensures Consistent(s, StripPair(w, unit, p, reserved))
  {
    var b1, b2 := reserved[0], reserved[1];
    SameUnitDiffer(s, unit, b1, b2);
    assert p == [p[0], p[1]];
    var r := StripPair(w, unit, p, reserved);
    forall i | 0 <= i < 81 ensures |s[i]| == 1 && s[i][0] in r[i] {
      if i in unit && i !in reserved {
        SameUnitDiffer(s, unit, i, b1);
        SameUnitDiffer(s, unit, i, b2);
        assert s[i][0] != p[0] && s[i][0] != p[1];
        assert r[i] == Remove(Remove(w[i], p[0]), p[1]);
      }
    }
  }

  lemma {:induction false} ApplyTwinsKeeps(v: Values, w: Values, unit: seq<Box>,
                                           pairs: seq<string>, s: Values)
    requires |v| == 81 && |w| == 81 && unit in UnitList() && Distinct(unit)
    requires forall k :: 0 <= k < |pairs| ==> |pairs[k]| == 2
    requires IsSolution(s) && Consistent(s, v) && Consistent(s, w)
    ensures Consistent(s, ApplyTwins(v, w, unit, pairs))
  {
    if pairs != [] {
      var front := pairs[..|pairs| - 1];
      var p := pairs[|pairs| - 1];
      ApplyTwinsKeeps(v, w, unit, front, s);
      var w' := ApplyTwins(v, w, unit, front);
      var boxes := TwinBoxes(v, unit, p);
      if |boxes| >= 2 {
        TwinBoxesSpec(v, unit, p);
        var reserved := boxes[..2];
        assert reserved[0] == boxes[0] && reserved[1] == boxes[1];
        assert v[boxes[0]] == p && v[boxes[1]] == p;
        StripPairKeeps(w', unit, p, reserved, s);
      }
    }
  }

  lemma {:induction false} NakedTwinsUnitsKeeps(v: Values, n: nat, s: Values)
    requires |v| == 81 && n <= |UnitList()| && IsSolution(s) && Consistent(s, v)
    ensures Consistent(s, NakedTwinsUnits(v, UnitList()[..n]))
  {
    if n > 0 {
      assert UnitList()[..n][..n - 1] == UnitList()[..n - 1];
      NakedTwinsUnitsKeeps(v, n - 1, s);
      var w := NakedTwinsUnits(v, UnitList()[..n - 1]);
      UnitSize(n - 1);
      ApplyTwinsKeeps(w, w, UnitList()[n - 1], TwinValues(w, UnitList()[n - 1]), s);
    }
  }

  /** Naked twins keeps every solution consistent with the values. */
  lemma NakedTwinsKeeps(v: Values, s: Values)
    requires |v| == 81 && IsSolution(s) && Consistent(s, v)
    ensures Consistent(s, NakedTwins(v))
  {
    NakedTwinsUnitsKeeps(v, |UnitList()|, s);
    assert UnitList()[..|UnitList()|] == UnitList();
  }

  // Reduction and search

  lemma RoundKeeps(v: Values, s: Values)
    requires DigitsOnly(v) && IsSolution(s) && Consistent(s, v)
    ensures Consistent(s, Round(v)) && DigitsOnly(Round(v)) && !HasEmpty(Round(v))
  {
    var e := Eliminate(v);
    EliminateKeeps(v, s);
    EliminateShrinks(v);
    DigitsOnlyShrinks(v, e);
    OnlyChoiceKeepsSolution(e, s);
    NakedTwinsKeeps(OnlyChoice(e), s);
    RoundShrinks(v);
    DigitsOnlyShrinks(v, Round(v));
  }

  /** Reduction keeps every solution consistent with the values, so it does
      not fail when the values allow one. */
  lemma {:induction false} ReduceKeeps(v: Values, s: Values)
    requires DigitsOnly(v) && IsSolution(s) && Consistent(s, v)
    ensures Reduce(v).Some?
    ensures Consistent(s, Reduce(v).value) && DigitsOnly(Reduce(v).value)
    decreases 81 - SolvedCount(v)
  {
    var w := Round(v);
    RoundKeeps(v, s);
    if SolvedCount(w) != SolvedCount(v) {
      RoundProgress(v);
      ReduceKeeps(w, s);
    }
  }

  /** Search succeeds whenever a solution is consistent with the values. */
  lemma {:induction false} SearchComplete(v: Values, s: Values)
    requires DigitsOnly(v) && IsSolution(s) && Consistent(s, v)
    ensures Search(v).Some?
    decreases TotalLength(v), 1, 0
  {
    ReduceKeeps(v, s);
    var w := Reduce(v).value;
    var (k, m) := Scan(w, 81);
    if m != 1 {
      ScanSpec(w, 81);
      ReduceShrinks(v);
      TotalLengthShrinks(v, w);
      var p :| 0 <= p < |w[k]| && w[k][p] == s[k][0];
      TryDigitsComplete(w, k, 0, p, s);
    }
  }

  lemma {:induction false} TryDigitsComplete(w: Values, k: Box, i: nat, p: nat, s: Values)
    requires DigitsOnly(w) && IsSolution(s) && Consistent(s, w)
    requires |w[k]| > 1 && i <= p < |w[k]| && w[k][p] == s[k][0]
    ensures TryDigits(w, k, i).Some?
    decreases TotalLength(w), 0, |w[k]| - i
  {
    var t := w[k := [w[k][i]]];
    TotalLengthAssign(w, k, w[k][i]);
    if i == p {
      assert s[k] == [s[k][0]];
      SearchComplete(t, s);
    } else if Search(t).None? {
      TryDigitsComplete(w, k, i + 1, p, s);
    }
  }

  /** `False` from search means the values admit no solution. */
  lemma SearchNoneUnsolvable(v: Values)
    requires DigitsOnly(v) && Search(v).None?
    ensures forall s :: Consistent(s, v) ==> !IsSolution(s)
  {
    forall s | Consistent(s, v) ensures !IsSolution(s) {
      if IsSolution(s) {
        SearchComplete(v, s);
      }
    }
  }

  /** What search returns is a solution consistent with its input. */
  lemma SearchSolves(v: Values)
    requires DigitsOnly(v) && Search(v).Some?
    ensures IsSolution(Search(v).value) && Consistent(Search(v).value, v)
  {
    SearchSound(v);
  }

  /** A puzzle with exactly one solution is solved to that solution. */
  lemma SearchUnique(v: Values, s: Values)
    requires DigitsOnly(v) && IsSolution(s) && Consistent(s, v)
    requires forall t :: IsSolution(t) && Consistent(t, v) ==> t == s
    ensures Search(v) == Some(s)
  {
    SearchComplete(v, s);
    SearchSolves(v);
  }
}
