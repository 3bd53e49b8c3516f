/**
 reduce_puzzle: rounds of eliminate, only-choice and naked twins, repeated
 until a round leaves the number of solved boxes unchanged; it fails as soon
 as a round leaves a box with no candidate.
 */
module Reduction {
  import opened Units
  import opened Candidates
  import opened Grid
  import opened EliminateStrategy
  import opened OnlyChoiceStrategy
  import opened NakedTwinsStrategy

  function Round(v: Values): (r: Values)
    requires |v| == 81
    ensures |r| == 81
  {
    NakedTwins(OnlyChoice(Eliminate(v)))
  }

  /** A round only deletes candidates. */
  lemma RoundShrinks(v: Values)
    requires |v| == 81
    ensures Shrinks(v, Round(v))
  {
    var e := Eliminate(v);
    var o := OnlyChoice(e);
    EliminateShrinks(v);
    OnlyChoiceKeeps(e);
    NakedTwinsShrinks(o);
    ShrinksTrans(v, e, o);
    ShrinksTrans(v, o, Round(v));
  }

  /** A round that leaves no box empty and changes the solved count raises it;
      the count never exceeds 81, so the loop ends. */
  lemma RoundProgress(v: Values)
    requires |v| == 81
    requires !HasEmpty(Round(v))
    ensures SolvedCount(v) <= SolvedCount(Round(v)) <= 81
  {
    RoundShrinks(v);
    SolvedCountMonotone(v, Round(v));
  }

  function Reduce(v: Values): (r: Option<Values>)
    requires |v| == 81
    ensures r.Some? ==> |r.value| == 81
    decreases 81 - SolvedCount(v)
  {
    var w := Round(v);
    if HasEmpty(w) then None
    else if SolvedCount(w) == SolvedCount(v) then Some(w)
    else
      RoundProgress(v);
      Reduce(w)
  }

  /** `False` when a box is left empty; otherwise no box is empty, every box
      keeps a subset of its candidates and no solved box is lost. */
  lemma {:induction false} ReduceShrinks(v: Values)
    requires |v| == 81
    ensures HasEmpty(v) ==> Reduce(v) == None
    ensures Reduce(v).Some? ==>
              !HasEmpty(Reduce(v).value) && Shrinks(v, Reduce(v).value) &&
              SolvedCount(v) <= SolvedCount(Reduce(v).value)
    decreases 81 - SolvedCount(v)
  {
    var w := Round(v);
    RoundShrinks(v);
    ShrinksSolved(v, w);
    if !HasEmpty(w) {
      RoundProgress(v);
      if SolvedCount(w) != SolvedCount(v) {
        ReduceShrinks(w);
        assert Reduce(v) == Reduce(w);
        if Reduce(w).Some? {
          ShrinksTrans(v, w, Reduce(w).value);
        }
      }
    }
  }

  /** When reduction leaves every box with at most one candidate, the grid is
      solved and no two peers share a digit: the last round's eliminate saw
      every box solved. */
  lemma {:induction false} ReduceSolvedIsValid(v: Values)
    requires |v| == 81
    requires Reduce(v).Some?
    requires forall i :: 0 <= i < 81 ==> |Reduce(v).value[i]| <= 1
    ensures AllSolved(Reduce(v).value) && PeersDiffer(Reduce(v).value)
    decreases 81 - SolvedCount(v)
  {
    var w := Round(v);
    RoundProgress(v);
    if SolvedCount(w) != SolvedCount(v) {
      ReduceSolvedIsValid(w);
    } else {
      LastRoundValid(v);
    }
  }

  lemma LastRoundValid(u: Values)
    requires |u| == 81
    requires !HasEmpty(Round(u)) && SolvedCount(Round(u)) == SolvedCount(u)
    requires forall i :: 0 <= i < 81 ==> |Round(u)[i]| <= 1
    ensures AllSolved(Round(u)) && PeersDiffer(Round(u))
  {
    var w := Round(u);
    var e := Eliminate(u);
    var o := OnlyChoice(e);
    assert AllSolved(w);
    SolvedUpToAll(w, 81);
    SolvedUpToBound(u, 81);
    assert AllSolved(u);
    EliminateShrinks(u);
    OnlyChoiceKeeps(e);
    NakedTwinsShrinks(o);
    ShrinksTrans(e, o, w);
    ShrinksSolved(e, w);
    EliminateAllSolved(u);
    assert e == u;
    ShrinksSolved(u, w);
    assert w == u;
  }
}
