/**
 search: reduce the puzzle; if boxes with more than one candidate remain,
 branch on the first of them (in key order) with the fewest candidates,
 trying its digits in string order, each on a copy of the values.
 */
module DepthFirstSearch {
  import opened Units
  import opened Candidates
  import opened Grid
  import opened EliminateStrategy
  import opened Reduction

  /** The scan over the first `n` keys for the branching box, starting from
      box A1 with length 1: a box with more than one candidate is taken when
      none was taken yet or it has fewer candidates than the one taken. */
  function Scan(v: Values, n: nat): (Box, nat)
    requires |v| == 81 && n <= 81
  {
    if n == 0 then (0, 1)
    else
      var (b, m) := Scan(v, n - 1);
      if |v[n - 1]| > 1 && (m == 1 || |v[n - 1]| < m) then (n - 1, |v[n - 1]|) else (b, m)
  }

  /** The scan finds the first box with the fewest candidates greater than one,
      and stays at length 1 exactly when every box has at most one candidate. */
  lemma {:induction false} ScanSpec(v: Values, n: nat)
    requires |v| == 81 && n <= 81
    ensures Scan(v, n).1 == 1 <==> forall i :: 0 <= i < n ==> |v[i]| <= 1
    ensures Scan(v, n).1 != 1 ==>
              var (b, m) := Scan(v, n);
              b < n && |v[b]| == m && m > 1 &&
              (forall i :: 0 <= i < n && |v[i]| > 1 ==> m <= |v[i]|) &&
              (forall i :: 0 <= i < b && |v[i]| > 1 ==> m < |v[i]|)
  {
    if n > 0 {
      ScanSpec(v, n - 1);
    }
  }

  function Search(v: Values): (r: Option<Values>)
    requires |v| == 81
    ensures r.Some? ==> |r.value| == 81
    decreases TotalLength(v), 1, 0
  {
    match Reduce(v)
    case None => None
    case Some(w) =>
      var (k, m) := Scan(w, 81);
      if m == 1 then Some(w)
      else
        ScanSpec(w, 81);
        ReduceShrinks(v);
        TotalLengthShrinks(v, w);
        TryDigits(w, k, 0)
  }

  /** The digits of box `k` from position `i` on, each tried on a copy of `w`
      with `k` set to it; the first search that succeeds gives the answer. */
  function TryDigits(w: Values, k: Box, i: nat): (r: Option<Values>)
    requires |w| == 81 && |w[k]| > 1 && i <= |w[k]|
    ensures r.Some? ==> |r.value| == 81
    decreases TotalLength(w), 0, |w[k]| - i
  {
    if i == |w[k]| then None
    else
      TotalLengthAssign(w, k, w[k][i]);
      match Search(w[k := [w[k][i]]])
      case Some(r) => Some(r)
      case None => TryDigits(w, k, i + 1)
  }

  /** A successful search solves every box, with a digit from the box's input
      candidates, and no two peers share a digit. */
  lemma {:induction false} SearchSound(v: Values)
    requires |v| == 81 && Search(v).Some?
    ensures AllSolved(Search(v).value) && PeersDiffer(Search(v).value)
    ensures Shrinks(v, Search(v).value)
    ensures forall i :: 0 <= i < 81 ==> Search(v).value[i][0] in v[i]
    decreases TotalLength(v), 1, 0
  {
    var r := Search(v).value;
    var w := Reduce(v).value;
    ReduceShrinks(v);
    var (k, m) := Scan(w, 81);
    ScanSpec(w, 81);
    if m == 1 {
      ReduceSolvedIsValid(v);
    } else {
      TotalLengthShrinks(v, w);
      TryDigitsSound(w, k, 0);
      ShrinksTrans(v, w, r);
    }
    forall i | 0 <= i < 81 ensures r[i][0] in v[i] {
      SubseqFacts(r[i], v[i]);
    }
  }

  lemma {:induction false} TryDigitsSound(w: Values, k: Box, i: nat)
    requires |w| == 81 && |w[k]| > 1 && i <= |w[k]|
    requires TryDigits(w, k, i).Some?
    ensures AllSolved(TryDigits(w, k, i).value) && PeersDiffer(TryDigits(w, k, i).value)
    ensures Shrinks(w, TryDigits(w, k, i).value)
    decreases TotalLength(w), 0, |w[k]| - i
  {
    var d := w[k][i];
    var t := w[k := [d]];
    TotalLengthAssign(w, k, d);
    if Search(t).Some? {
      SearchSound(t);
      SingletonSubseq(d, w[k]);
      ShrinksRefl(w);
      assert Shrinks(w, t);
      ShrinksTrans(w, t, Search(t).value);
    } else {
      TryDigitsSound(w, k, i + 1);
    }
  }

  /** In a grid search returns, the boxes of every unit hold different digits. */
  lemma SolutionUnitsDistinct(v: Values)
    requires |v| == 81 && Search(v).Some?
    ensures forall u, j1, j2 :: 0 <= u < |UnitList()| && 0 <= j1 < j2 < |UnitList()[u]| ==>
              Search(v).value[UnitList()[u][j1]] != Search(v).value[UnitList()[u][j2]]
  {
    SearchSound(v);
    forall u, j1, j2 | 0 <= u < |UnitList()| && 0 <= j1 < j2 < |UnitList()[u]|
      ensures Search(v).value[UnitList()[u][j1]] != Search(v).value[UnitList()[u][j2]]
    {
      UnitPeers(u, j1, j2);
    }
  }
}
