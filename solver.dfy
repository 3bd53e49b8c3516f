/**
 The solver as it runs: `values` is an array of the 81 boxes' candidate
 strings in key order, which the strategies rewrite in place. Each method is
 proved to leave the array as the matching function of its old contents.
 */
module Solver {
  import opened Units
  import opened Candidates
  import opened Grid
  import E = EliminateStrategy
  import O = OnlyChoiceStrategy
  import N = NakedTwinsStrategy
  import R = Reduction
  import D = DepthFirstSearch
  import opened Solutions

  /** The digit of solved box `key` deleted from each of its peers. */
  method DeleteFromPeers(values: array<string>, key: Box)
    requires values.Length == 81 && |values[key]| == 1
    modifies values
    ensures values[..] == E.Visit(old(values[..]), key)
  {
    ghost var w := values[..];
    var digit := values[key][0];
    for neighbor := 0 to 81
      invariant forall i :: 0 <= i < 81 ==>
        values[i] == if i < neighbor && IsPeer(key, i) then Remove(w[i], digit) else w[i]
    {
      if IsPeer(key, neighbor) {
        values[neighbor] := Remove(values[neighbor], digit);
      }
    }
    assert values[..] == E.VisitUpTo(w, key, 81);
  }

  /** Every box holding one digit when it is visited, in key order, deletes
      that digit from its peers. */
  method Eliminate(values: array<string>)
    requires values.Length == 81
    modifies values
    ensures values[..] == E.Eliminate(old(values[..]))
  {
    ghost var v0 := values[..];
    for key := 0 to 81
      invariant values[..] == E.EliminateUpTo(v0, key)
    {
      if |values[key]| == 1 {
        DeleteFromPeers(values, key);
      }
    }
  }

  /** `frequency` counts every character of `counted`, and `order` lists the
      table's keys in the order they were first counted. */
  ghost predicate Tallies(frequency: map<char, nat>, order: string, counted: string)
  {
    && order == FirstOccurrences(counted)
    && (forall c :: c in frequency <==> c in counted)
    && (forall c :: c in frequency ==> frequency[c] == Occurrences(counted, c))
  }

  /** Counting one more character: a new key goes to the end of the order. */
  lemma TallyAdd(frequency: map<char, nat>, order: string, counted: string, number: char)
    requires Tallies(frequency, order, counted)
    ensures number in frequency ==>
              Tallies(frequency[number := frequency[number] + 1], order, counted + [number])
    ensures number !in frequency ==>
              Tallies(frequency[number := 1], order + [number], counted + [number])
  {
    FirstOccurrencesSpec(counted);
    assert (counted + [number])[..|counted|] == counted;
    assert forall c :: Occurrences(counted + [number], c) ==
                       Occurrences(counted, c) + (if c == number then 1 else 0);
    if number !in frequency {
      assert number !in order;
      OccurrencesPositive(counted, number);
      assert FirstOccurrences(counted + [number]) == order + [number];
    }
  }

  /** The characters of `s` added to the table, one by one. */
  method Tally(frequency: map<char, nat>, order: string, ghost counted: string, s: string)
    returns (frequency': map<char, nat>, order': string)
    requires Tallies(frequency, order, counted)
    ensures Tallies(frequency', order', counted + s)
  {
    frequency', order' := frequency, order;
    ghost var seen := counted;
    for m := 0 to |s|
      invariant seen == counted + s[..m]
      invariant Tallies(frequency', order', seen)
    {
      var number := s[m];
      TallyAdd(frequency', order', seen, number);
      if number in frequency' {
        frequency' := frequency'[number := frequency'[number] + 1];
      } else {
        frequency' := frequency'[number := 1];
        order' := order' + [number];
      }
      seen := seen + [number];
      assert s[..m + 1] == s[..m] + [number];
    }
    assert s[..|s|] == s;
  }

  /** The frequency table of the unit's candidates, and its keys in the order
      the table first saw them. */
  method CountDigits(values: array<string>, unit: seq<Box>)
    returns (frequency: map<char, nat>, order: string)
    requires values.Length == 81
    ensures order == FirstOccurrences(O.UnitDigits(values[..], unit))
    ensures forall c :: c in frequency <==> c in O.UnitDigits(values[..], unit)
    ensures forall c :: c in frequency ==> frequency[c] == Occurrences(O.UnitDigits(values[..], unit), c)
  {
    frequency, order := map[], [];
    for j := 0 to |unit|
      invariant Tallies(frequency, order, O.UnitDigits(values[..], unit[..j]))
    {
      assert unit[..j + 1][..j] == unit[..j];
      frequency, order := Tally(frequency, order, O.UnitDigits(values[..], unit[..j]), values[unit[j]]);
    }
    assert unit[..|unit|] == unit;
  }

  /** The first box of the unit that still holds `number` is set to it. */
  method AssignFirst(values: array<string>, unit: seq<Box>, number: char)
    requires values.Length == 81
    modifies values
    ensures values[..] == O.AssignFrom(old(values[..]), unit, number, 0)
  {
    ghost var x := values[..];
    var j := 0;
    while j < |unit|
      invariant 0 <= j <= |unit|
      invariant values[..] == x
      invariant O.AssignFrom(x, unit, number, j) == O.AssignFrom(x, unit, number, 0)
    {
      if number in values[unit[j]] {
        values[unit[j]] := [number];
        return;
      }
      j := j + 1;
    }
  }

  /** Every digit the unit's table counted once goes to its first box. */
  method OnlyChoiceUnit(values: array<string>, unit: seq<Box>)
    requires values.Length == 81
    modifies values
    ensures values[..] == O.OnlyChoiceUnit(old(values[..]), unit)
  {
    ghost var w := values[..];
    var frequency, order := CountDigits(values, unit);
    ghost var counted := O.UnitDigits(w, unit);
    FirstOccurrencesSpec(counted);
    for t := 0 to |order|
      invariant values[..] == O.ApplyChoices(w, unit, counted, order[..t])
    {
      var number := order[t];
      assert order[..t + 1][..t] == order[..t];
      if frequency[number] == 1 {
        AssignFirst(values, unit, number);
      }
    }
    assert order[..|order|] == order;
  }

  /** The units processed in order, each on what the previous one left. */
  method OnlyChoice(values: array<string>)
    requires values.Length == 81
    modifies values
    ensures values[..] == O.OnlyChoice(old(values[..]))
  {
    ghost var v0 := values[..];
    var unitlist := UnitList();
    for u := 0 to |unitlist|
      invariant values[..] == O.OnlyChoiceUnits(v0, unitlist[..u])
    {
      assert unitlist[..u + 1][..u] == unitlist[..u];
      OnlyChoiceUnit(values, unitlist[u]);
    }
    assert unitlist[..|unitlist|] == unitlist;
  }

  /** `pairs` maps each two-character value among `boxes` to the boxes holding
      it, and `order` lists its keys in the order they were first seen. */
  ghost predicate Groups(pairs: map<string, seq<Box>>, order: seq<string>, v: Values, boxes: seq<Box>)
    requires |v| == 81
  {
    && order == N.TwinValues(v, boxes)
    && (forall p :: p in pairs <==> p in order)
    && (forall p :: p in pairs ==> pairs[p] == N.TwinBoxes(v, boxes, p))
    && (forall p :: |p| == 2 && p !in pairs ==> N.TwinBoxes(v, boxes, p) == [])
  }

  /** One more box seen: its two-character value joins its group, a new key
      going to the end of the order. */
  lemma GroupAdd(pairs: map<string, seq<Box>>, order: seq<string>, v: Values, unit: seq<Box>, j: nat)
    requires |v| == 81 && j < |unit| && Groups(pairs, order, v, unit[..j])
    ensures var x := v[unit[j]];
      && (|x| != 2 ==> Groups(pairs, order, v, unit[..j + 1]))
      && (|x| == 2 && x in pairs ==> Groups(pairs[x := pairs[x] + [unit[j]]], order, v, unit[..j + 1]))
      && (|x| == 2 && x !in pairs ==> Groups(pairs[x := [unit[j]]], order + [x], v, unit[..j + 1]))
  {
    var b, x := unit[j], v[unit[j]];
    var pre, post := unit[..j], unit[..j + 1];
    assert post[..|post| - 1] == pre && post[|post| - 1] == b;
    assert N.TwinValues(v, post) ==
           if |x| == 2 && x !in order then order + [x] else order;
    forall p ensures N.TwinBoxes(v, post, p) == N.TwinBoxes(v, pre, p) + (if x == p then [b] else []) {
    }
    if |x| != 2 {
      assert Groups(pairs, order, v, post);
    } else if x in pairs {
      var pairs' := pairs[x := pairs[x] + [b]];
      forall p | p in pairs' ensures pairs'[p] == N.TwinBoxes(v, post, p) {
      }
      assert Groups(pairs', order, v, post);
    } else {
      var pairs' := pairs[x := [b]];
      assert N.TwinBoxes(v, pre, x) == [];
      forall p | p in pairs' ensures pairs'[p] == N.TwinBoxes(v, post, p) {
      }
      assert Groups(pairs', order + [x], v, post);
    }
  }

  /** The dictionary from each two-character value of the unit to the boxes
      holding it, and its keys in the order it first saw them. */
  method GroupPairs(values: array<string>, unit: seq<Box>)
    returns (pairs: map<string, seq<Box>>, order: seq<string>)
    requires values.Length == 81
    ensures order == N.TwinValues(values[..], unit)
    ensures forall p :: p in pairs <==> p in order
    ensures forall p :: p in pairs ==> pairs[p] == N.TwinBoxes(values[..], unit, p)
  {
    pairs, order := map[], [];
    for j := 0 to |unit|
      invariant Groups(pairs, order, values[..], unit[..j])
    {
      var box := unit[j];
      GroupAdd(pairs, order, values[..], unit, j);
      if |values[box]| == 2 {
        if values[box] in pairs {
          pairs := pairs[values[box] := pairs[values[box]] + [box]];
        } else {
          pairs := pairs[values[box] := [box]];
          order := order + [values[box]];
        }
      }
    }
    assert unit[..|unit|] == unit;
  }

  /** Both digits of `pair` deleted from every box of the unit outside `reserved`. */
  method StripPair(values: array<string>, unit: seq<Box>, pair: string, reserved: seq<Box>)
    requires values.Length == 81 && |pair| == 2
    requires Distinct(unit)
    modifies values
    ensures values[..] == N.StripPair(old(values[..]), unit, pair, reserved)
  {
    ghost var x := values[..];
    for j := 0 to |unit|
      invariant values[..] == N.StripPair(x, unit[..j], pair, reserved)
    {
      var box := unit[j];
      assert unit[..j + 1] == unit[..j] + [box];
      assert box !in unit[..j];
      if box !in reserved {
        values[box] := Remove(values[box], pair[0]);
        values[box] := Remove(values[box], pair[1]);
      }
      assert values[..] == N.StripPair(x, unit[..j + 1], pair, reserved);
    }
    assert unit[..|unit|] == unit;
  }

  /** Every value of the unit's dictionary held by two or more boxes is
      stripped from the rest of the unit. */
  method NakedTwinsUnit(values: array<string>, unit: seq<Box>)
    requires values.Length == 81
    requires Distinct(unit)
    modifies values
    ensures values[..] == N.NakedTwinsUnit(old(values[..]), unit)
  {
    ghost var w := values[..];
    var pairs, order := GroupPairs(values, unit);
    for t := 0 to |order|
      invariant values[..] == N.ApplyTwins(w, w, unit, order[..t])
    {
      var pair := order[t];
      assert order[..t + 1][..t] == order[..t];
      if |pairs[pair]| >= 2 {
        StripPair(values, unit, pair, pairs[pair][..2]);
      }
    }
    assert order[..|order|] == order;
  }

  /** The units processed in order, each on what the previous one left. */
  method NakedTwins(values: array<string>)
    requires values.Length == 81
    modifies values
    ensures values[..] == N.NakedTwins(old(values[..]))
  {
    ghost var v0 := values[..];
    var unitlist := UnitList();
    for u := 0 to |unitlist|
      invariant values[..] == N.NakedTwinsUnits(v0, unitlist[..u])
    {
      assert unitlist[..u + 1][..u] == unitlist[..u];
      UnitSize(u);
      NakedTwinsUnit(values, unitlist[u]);
    }
    assert unitlist[..|unitlist|] == unitlist;
  }

  /** Rounds of the three strategies until the solved count stops changing;
      `false` after a round that leaves a box empty, with that round's values
      left in the array. */
  method ReducePuzzle(values: array<string>) returns (ok: bool)
    requires values.Length == 81
    modifies values
    ensures ok <==> R.Reduce(old(values[..])).Some?
    ensures ok ==> values[..] == R.Reduce(old(values[..])).value
    ensures !ok ==> HasEmpty(values[..])
  {
    ghost var v0 := values[..];
    var stalled := false;
    while !stalled
      invariant !stalled ==> R.Reduce(values[..]) == R.Reduce(v0)
      invariant stalled ==> R.Reduce(v0) == Some(values[..])
      decreases !stalled, 81 - SolvedCount(values[..])
    {
      ghost var v := values[..];
      var solvedBefore := SolvedCount(values[..]);
      Eliminate(values);
      OnlyChoice(values);
      NakedTwins(values);
      var solvedAfter := SolvedCount(values[..]);
      stalled := solvedBefore == solvedAfter;
      if HasEmpty(values[..]) {
        return false;
      }
      R.RoundProgress(v);
    }
    return true;
  }

  /** The first box in key order with the fewest candidates greater than one;
      `minLen` stays 1 when no box has more than one candidate. */
  method ChooseBox(values: array<string>) returns (searchBox: Box, minLen: nat)
    requires values.Length == 81
    ensures (searchBox, minLen) == D.Scan(values[..], 81)
    ensures minLen == 1 <==> forall i :: 0 <= i < 81 ==> |values[i]| <= 1
    ensures minLen != 1 ==>
              |values[searchBox]| == minLen && minLen > 1 &&
              (forall i :: 0 <= i < 81 && |values[i]| > 1 ==> minLen <= |values[i]|) &&
              (forall i :: 0 <= i < searchBox && |values[i]| > 1 ==> minLen < |values[i]|)
  {
    minLen, searchBox := 1, 0;
    for box := 0 to 81
      invariant (searchBox, minLen) == D.Scan(values[..], box)
    {
      if |values[box]| > 1 {
        if minLen == 1 || |values[box]| < minLen {
          minLen := |values[box]|;
          searchBox := box;
        }
      }
    }
    D.ScanSpec(values[..], 81);
  }

  /** A fresh array with the same boxes as `values`. */
  method Copy(values: array<string>) returns (temp: array<string>)
    ensures fresh(temp) && temp[..] == values[..]
  {
    temp := new string[values.Length];
    forall j | 0 <= j < values.Length {
      temp[j] := values[j];
    }
  }

  /** Reduce, then branch on the chosen box's digits in string order, each on
      a copy of the values. The answer is `values` itself or a fresh copy;
      when reduction succeeds, `values` is left holding the reduced grid. */
  method Search(values: array<string>) returns (r: Option<array<string>>)
    requires values.Length == 81
    modifies values
    ensures r.Some? <==> D.Search(old(values[..])).Some?
    ensures r.Some? ==> r.value.Length == 81 && r.value[..] == D.Search(old(values[..])).value
    ensures r.Some? ==> r.value == values || fresh(r.value)
    ensures R.Reduce(old(values[..])).Some? ==> values[..] == R.Reduce(old(values[..])).value
    decreases TotalLength(values[..]), 1
  {
    ghost var v0 := values[..];
    var ok := ReducePuzzle(values);
    if !ok {
      return None;
    }
    var searchBox, minLen := ChooseBox(values);
    if minLen == 1 {
      return Some(values);
    }
    R.ReduceShrinks(v0);
    TotalLengthShrinks(v0, values[..]);
    r := TryDigits(values, searchBox);
  }

  /** The digits of `searchBox` in string order, each written into a fresh
      copy of `values` that is then searched; the first success is the answer. */
  method TryDigits(values: array<string>, searchBox: Box) returns (r: Option<array<string>>)
    requires values.Length == 81 && |values[searchBox]| > 1
    ensures r.Some? <==> D.TryDigits(values[..], searchBox, 0).Some?
    ensures r.Some? ==>
              r.value.Length == 81 && r.value[..] == D.TryDigits(values[..], searchBox, 0).value
    ensures r.Some? ==> fresh(r.value)
    decreases TotalLength(values[..]), 0
  {
    ghost var w := values[..];
    var digits := values[searchBox];
    for i := 0 to |digits|
      invariant D.TryDigits(w, searchBox, i) == D.TryDigits(w, searchBox, 0)
    {
      var temp := Copy(values);
      temp[searchBox] := [digits[i]];
      TotalLengthAssign(w, searchBox, digits[i]);
      var result := Search(temp);
      if result.Some? {
        return result;
      }
    }
    return None;
  }

  /** solve on an already parsed grid: `None`, or every box holding one digit
      from its candidates with no digit repeated within a unit. When every
      candidate is a digit 1-9, the answer is a solution of the puzzle, and
      `None` means the puzzle has none. */
  method Solve(values: array<string>) returns (r: Option<array<string>>)
    requires values.Length == 81
    modifies values
    ensures r.Some? <==> D.Search(old(values[..])).Some?
    ensures r.Some? ==> r.value.Length == 81
    ensures r.Some? ==> forall i :: 0 <= i < 81 ==> |r.value[i]| == 1 && r.value[i][0] in old(values[i])
    ensures r.Some? ==>
              forall u, j1, j2 :: 0 <= u < |UnitList()| && 0 <= j1 < j2 < |UnitList()[u]| ==>
                r.value[UnitList()[u][j1]] != r.value[UnitList()[u][j2]]
    ensures DigitsOnly(old(values[..])) && r.Some? ==>
              IsSolution(r.value[..]) && Consistent(r.value[..], old(values[..]))
    ensures DigitsOnly(old(values[..])) && r.None? ==>
              forall s :: Consistent(s, old(values[..])) ==> !IsSolution(s)
  {
    ghost var v0 := values[..];
    r := Search(values);
    if r.Some? {
      D.SearchSound(v0);
      D.SolutionUnitsDistinct(v0);
      if DigitsOnly(v0) {
        SearchSolves(v0);
      }
    } else if DigitsOnly(v0) {
      SearchNoneUnsolvable(v0);
    }
  }
}
