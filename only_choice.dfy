/**
 The only-choice strategy: unit by unit, a frequency table counts every digit
 among the candidates of the unit's boxes; each digit counted exactly once
 (in the order the table first saw them) is assigned to the first box of the
 unit that still holds it.
 */
module OnlyChoiceStrategy {
  import opened Units
  import opened Candidates
  import opened Grid

  /** The candidates of the unit's boxes strung together in unit order:
      what the frequency table counts. */
  function UnitDigits(v: Values, unit: seq<Box>): string
    requires |v| == 81
  {
    if unit == [] then []
    else UnitDigits(v, unit[..|unit| - 1]) + v[unit[|unit| - 1]]
  }

  /** The first box of `unit`, from position `j` on, that holds `c` is set to `c`. */
  function AssignFrom(v: Values, unit: seq<Box>, c: char, j: nat): (r: Values)
    requires |v| == 81 && j <= |unit|
    ensures |r| == 81
    decreases |unit| - j
  {
    if j == |unit| then v
    else if c in v[unit[j]] then v[unit[j] := [c]]
    else AssignFrom(v, unit, c, j + 1)
  }

  /** The table's keys `nums` taken in order; `digits` is what it counted. */
  function ApplyChoices(v: Values, unit: seq<Box>, digits: string, nums: string): (r: Values)
    requires |v| == 81
    ensures |r| == 81
  {
    if nums == [] then v
    else
      var w := ApplyChoices(v, unit, digits, nums[..|nums| - 1]);
      var c := nums[|nums| - 1];
      if Occurrences(digits, c) == 1 then AssignFrom(w, unit, c, 0) else w
  }

  function OnlyChoiceUnit(v: Values, unit: seq<Box>): (r: Values)
    requires |v| == 81
    ensures |r| == 81
  {
    var digits := UnitDigits(v, unit);
    ApplyChoices(v, unit, digits, FirstOccurrences(digits))
  }

  /** The units processed in order, each on the values the previous left. */
  function OnlyChoiceUnits(v: Values, units: seq<seq<Box>>): (r: Values)
    requires |v| == 81
    ensures |r| == 81
  {
    if units == [] then v
    else OnlyChoiceUnit(OnlyChoiceUnits(v, units[..|units| - 1]), units[|units| - 1])
  }

  function OnlyChoice(v: Values): (r: Values)
    requires |v| == 81
    ensures |r| == 81
  {
    OnlyChoiceUnits(v, UnitList())
  }

  /** Every box of `w` holds `v`'s candidates or one digit taken from them. */
  ghost predicate KeepsOrPicks(v: Values, w: Values)
  {
    |v| == 81 && |w| == 81 &&
    forall i :: 0 <= i < 81 ==> w[i] == v[i] || (|w[i]| == 1 && w[i][0] in v[i])
  }

  /** As KeepsOrPicks, and every picked digit is counted once in `digits`. */
  ghost predicate PicksUnique(v: Values, w: Values, digits: string)
  {
    |v| == 81 && |w| == 81 &&
    forall i :: 0 <= i < 81 ==>
      w[i] == v[i] || (|w[i]| == 1 && w[i][0] in v[i] && Occurrences(digits, w[i][0]) == 1)
  }

  lemma {:induction false} AssignFromSpec(v: Values, unit: seq<Box>, c: char, j: nat)
    requires |v| == 81 && j <= |unit|
    ensures forall i :: 0 <= i < 81 ==>
              AssignFrom(v, unit, c, j)[i] == v[i] ||
              (AssignFrom(v, unit, c, j)[i] == [c] && c in v[i])
    decreases |unit| - j
  {
    if j < |unit| && c !in v[unit[j]] {
      AssignFromSpec(v, unit, c, j + 1);
    }
  }

  /** The first box from position `j` on that holds `c` receives it. */
  lemma {:induction false} AssignFromHits(v: Values, unit: seq<Box>, c: char, j: nat, k: nat)
    requires |v| == 81 && j <= k < |unit|
    requires c in v[unit[k]]
    requires forall m :: j <= m < k ==> c !in v[unit[m]]
    ensures AssignFrom(v, unit, c, j)[unit[k]] == [c]
    decreases k - j
  {
    if j < k {
      AssignFromHits(v, unit, c, j + 1, k);
    }
  }

  lemma {:induction false} UnitDigitsMember(v: Values, unit: seq<Box>, j: nat, c: char)
    requires |v| == 81 && j < |unit| && c in v[unit[j]]
    ensures c in UnitDigits(v, unit)
  {
    var n := |unit| - 1;
    if j < n {
      UnitDigitsMember(v, unit[..n], j, c);
    }
  }

  /** A counted digit comes from the candidates of some box of the unit. */
  lemma {:induction false} UnitDigitsSource(v: Values, unit: seq<Box>, c: char) returns (j: nat)
    requires |v| == 81 && c in UnitDigits(v, unit)
    ensures j < |unit| && c in v[unit[j]]
  {
    var n := |unit| - 1;
    if c in v[unit[n]] {
      j := n;
    } else {
      j := UnitDigitsSource(v, unit[..n], c);
    }
  }

  /** A digit counted once lies in the candidates of exactly one position of the unit. */
  lemma {:induction false} CountedOnce(v: Values, unit: seq<Box>, c: char, j1: nat, j2: nat)
    requires |v| == 81 && j1 < |unit| && j2 < |unit|
    requires c in v[unit[j1]] && c in v[unit[j2]]
    requires Occurrences(UnitDigits(v, unit), c) == 1
    ensures j1 == j2
  {
    if j1 != j2 {
      var lo, hi := if j1 < j2 then j1 else j2, if j1 < j2 then j2 else j1;
      TwiceCounted(v, unit, c, lo, hi);
    }
  }

  lemma {:induction false} TwiceCounted(v: Values, unit: seq<Box>, c: char, lo: nat, hi: nat)
    requires |v| == 81 && lo < hi < |unit|
    requires c in v[unit[lo]] && c in v[unit[hi]]
    ensures Occurrences(UnitDigits(v, unit), c) >= 2
  {
    var n := |unit| - 1;
    var front := unit[..n];
    OccurrencesAppend(UnitDigits(v, front), v[unit[n]], c);
    if hi < n {
      TwiceCounted(v, front, c, lo, hi);
    } else {
      UnitDigitsMember(v, front, lo, c);
      OccurrencesPositive(UnitDigits(v, front), c);
      OccurrencesPositive(v[unit[n]], c);
    }
  }

  /** After the table's keys `nums` are processed, every box is unchanged or
      holds one digit counted once, and each processed digit counted once has
      left its box solved. */
  lemma {:induction false} ApplyChoicesSpec(v: Values, unit: seq<Box>, nums: string)
    requires |v| == 81
    ensures PicksUnique(v, ApplyChoices(v, unit, UnitDigits(v, unit), nums), UnitDigits(v, unit))
    ensures forall c, j ::
              (c in nums && 0 <= j < |unit| && c in v[unit[j]] &&
               Occurrences(UnitDigits(v, unit), c) == 1) ==>
              |ApplyChoices(v, unit, UnitDigits(v, unit), nums)[unit[j]]| == 1
  {
    var digits := UnitDigits(v, unit);
    if nums != [] {
      var front := nums[..|nums| - 1];
      var c := nums[|nums| - 1];
      ApplyChoicesSpec(v, unit, front);
      var w := ApplyChoices(v, unit, digits, front);
      var r := ApplyChoices(v, unit, digits, nums);
      assert nums == front + [c];
      if Occurrences(digits, c) == 1 {
        assert r == AssignFrom(w, unit, c, 0);
        AssignFromSpec(w, unit, c, 0);
        forall i | 0 <= i < 81
          ensures r[i] == v[i] || (|r[i]| == 1 && r[i][0] in v[i] && Occurrences(digits, r[i][0]) == 1)
        {
          if r[i] != w[i] {
            assert r[i] == [c] && c in w[i];
          }
        }
        forall j | 0 <= j < |unit| && c in v[unit[j]]
          ensures |r[unit[j]]| == 1
        {
          if c in w[unit[j]] {
            forall m | 0 <= m < j ensures c !in w[unit[m]] {
              if c in w[unit[m]] {
                CountedOnce(v, unit, c, m, j);
              }
            }
            AssignFromHits(w, unit, c, 0, j);
          }
        }
      }
    }
  }

  /** A digit that only one box of the unit allows leaves that box solved,
      with that digit or another digit the unit allows only there. */
  lemma OnlyChoiceUnitAssigns(v: Values, unit: seq<Box>, j: nat, c: char)
    requires |v| == 81 && j < |unit|
    requires c in v[unit[j]] && Occurrences(UnitDigits(v, unit), c) == 1
    ensures var r := OnlyChoiceUnit(v, unit);
      |r[unit[j]]| == 1 && r[unit[j]][0] in v[unit[j]] &&
      Occurrences(UnitDigits(v, unit), r[unit[j]][0]) == 1
  {
    var digits := UnitDigits(v, unit);
    var nums := FirstOccurrences(digits);
    UnitDigitsMember(v, unit, j, c);
    FirstOccurrencesSpec(digits);
    assert c in nums;
    ApplyChoicesSpec(v, unit, nums);
    var r := ApplyChoices(v, unit, digits, nums);
    var b := unit[j];
    assert |r[b]| == 1;
    if r[b] == v[b] {
      assert v[b] == [c];
    } else {
      assert r[b][0] in v[b] && Occurrences(digits, r[b][0]) == 1;
    }
  }

  lemma KeepsOrPicksTrans(u: Values, v: Values, w: Values)
    requires KeepsOrPicks(u, v) && KeepsOrPicks(v, w)
    ensures KeepsOrPicks(u, w)
  {
  }

  lemma {:induction false} OnlyChoiceUnitsKeeps(v: Values, units: seq<seq<Box>>)
    requires |v| == 81
    ensures KeepsOrPicks(v, OnlyChoiceUnits(v, units))
  {
    if units != [] {
      var front := units[..|units| - 1];
      var w := OnlyChoiceUnits(v, front);
      OnlyChoiceUnitsKeeps(v, front);
      ApplyChoicesSpec(w, units[|units| - 1], FirstOccurrences(UnitDigits(w, units[|units| - 1])));
      KeepsOrPicksTrans(v, w, OnlyChoiceUnits(v, units));
    }
  }

  /** Every box ends with its old candidates or with one digit taken from
      them; so no digit is introduced and no solved box is lost. */
  lemma OnlyChoiceKeeps(v: Values)
    requires |v| == 81
    ensures KeepsOrPicks(v, OnlyChoice(v))
    ensures Shrinks(v, OnlyChoice(v))
    ensures SolvedCount(v) <= SolvedCount(OnlyChoice(v))
  {
    var r := OnlyChoice(v);
    OnlyChoiceUnitsKeeps(v, UnitList());
    forall i | 0 <= i < 81 ensures Subseq(r[i], v[i]) {
      if r[i] == v[i] {
        SubseqRefl(v[i]);
      } else {
        assert r[i] == [r[i][0]];
        SingletonSubseq(r[i][0], v[i]);
      }
    }
    SolvedUpToMonotone(v, r, 81);
  }
}
