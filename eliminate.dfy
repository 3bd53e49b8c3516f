/**
 The eliminate strategy: boxes are visited in key order, and a box that holds
 a single digit when it is visited deletes that digit from all its peers.
 */
module EliminateStrategy {
  import opened Units
  import opened Candidates
  import opened Grid

  /** The visit of solved box `k` after its peers among the first `n` boxes
      have lost its digit. */
  function VisitUpTo(v: Values, k: Box, n: nat): (r: Values)
    requires |v| == 81 && |v[k]| == 1 && n <= 81
    ensures |r| == 81
  {
    seq(81, i requires 0 <= i < 81 =>
      if i < n && IsPeer(k, i) then Remove(v[i], v[k][0]) else v[i])
  }

  function Visit(v: Values, k: Box): (r: Values)
    requires |v| == 81
    ensures |r| == 81
  {
    if |v[k]| == 1 then VisitUpTo(v, k, 81) else v
  }

  /** The values after the first `n` keys have been visited. */
  function EliminateUpTo(v: Values, n: nat): (r: Values)
    requires |v| == 81 && n <= 81
    ensures |r| == 81
  {
    if n == 0 then v else Visit(EliminateUpTo(v, n - 1), n - 1)
  }

  function Eliminate(v: Values): (r: Values)
    requires |v| == 81
    ensures |r| == 81
  {
    EliminateUpTo(v, 81)
  }

  ghost predicate AllSolved(v: Values)
  {
    |v| == 81 && forall i :: 0 <= i < 81 ==> |v[i]| == 1
  }

  ghost predicate PeersDiffer(v: Values)
  {
    |v| == 81 && forall a: Box, b: Box :: IsPeer(a, b) ==> v[a] != v[b]
  }

  lemma VisitShrinks(v: Values, k: Box)
    requires |v| == 81
    ensures Shrinks(v, Visit(v, k))
  {
    if |v[k]| == 1 {
      forall i | 0 <= i < 81 ensures Subseq(Visit(v, k)[i], v[i]) {
        if IsPeer(k, i) {
          RemoveSubseq(v[i], v[k][0]);
        } else {
          SubseqRefl(v[i]);
        }
      }
    } else {
      ShrinksRefl(v);
    }
  }

  /** Later visits only delete candidates. */
  lemma {:induction false} EliminateUpToShrinks(v: Values, m: nat, n: nat)
    requires |v| == 81 && m <= n <= 81
    ensures Shrinks(EliminateUpTo(v, m), EliminateUpTo(v, n))
    decreases n
  {
    if m == n {
      ShrinksRefl(EliminateUpTo(v, m));
    } else {
      EliminateUpToShrinks(v, m, n - 1);
      VisitShrinks(EliminateUpTo(v, n - 1), n - 1);
      ShrinksTrans(EliminateUpTo(v, m), EliminateUpTo(v, n - 1), EliminateUpTo(v, n));
    }
  }

  /** Eliminate only deletes candidates; every box keeps its key. */
  lemma EliminateShrinks(v: Values)
    requires |v| == 81
    ensures Shrinks(v, Eliminate(v))
  {
    EliminateUpToShrinks(v, 0, 81);
  }

  /** A box that holds one digit when it is visited leaves that digit in none
      of its peers once the pass is over. */
  lemma EliminateClears(v: Values, k: Box, i: Box)
    requires |v| == 81
    requires |EliminateUpTo(v, k)[k]| == 1 && IsPeer(k, i)
    ensures EliminateUpTo(v, k)[k][0] !in Eliminate(v)[i]
  {
    var w := EliminateUpTo(v, k);
    var d := w[k][0];
    assert EliminateUpTo(v, k + 1)[i] == Remove(w[i], d);
    EliminateUpToShrinks(v, k + 1, 81);
    SubseqFacts(Eliminate(v)[i], EliminateUpTo(v, k + 1)[i]);
  }

  /** Every digit the pass deletes from a box is the digit of one of its
      peers that was solved when it was visited. */
  lemma {:induction false} EliminateUpToDeletesSolved(v: Values, n: nat, i: Box, c: char)
    requires |v| == 81 && n <= 81
    requires c in v[i] && c !in EliminateUpTo(v, n)[i]
    ensures exists k :: 0 <= k < n && IsPeer(k, i) && EliminateUpTo(v, k)[k] == [c]
  {
    if n > 0 {
      var w := EliminateUpTo(v, n - 1);
      if c !in w[i] {
        EliminateUpToDeletesSolved(v, n - 1, i, c);
        var k :| 0 <= k < n - 1 && IsPeer(k, i) && EliminateUpTo(v, k)[k] == [c];
      } else {
        var k := n - 1;
        assert |w[k]| == 1 && IsPeer(k, i) && w[k][0] == c;
        assert w[k] == [c];
      }
    }
  }

  lemma EliminateDeletesSolved(v: Values, i: Box, c: char)
    requires |v| == 81
    requires c in v[i] && c !in Eliminate(v)[i]
    ensures exists k :: 0 <= k < 81 && IsPeer(k, i) && EliminateUpTo(v, k)[k] == [c]
  {
    EliminateUpToDeletesSolved(v, 81, i, c);
  }

  /** On a grid where every box is solved, the pass leaves no box empty
      exactly when no two peers share a digit, and then it changes nothing. */
  lemma EliminateAllSolved(v: Values)
    requires AllSolved(v)
    ensures !HasEmpty(Eliminate(v)) <==> PeersDiffer(v)
    ensures !HasEmpty(Eliminate(v)) ==> Eliminate(v) == v
  {
    if !HasEmpty(Eliminate(v)) {
      EliminateAllSolvedUnchanged(v);
      forall a: Box, b: Box | IsPeer(a, b) ensures v[a] != v[b] {
        assert Visit(v, a) == v by {
          assert EliminateUpTo(v, a) == v && EliminateUpTo(v, a + 1) == v;
        }
        assert Visit(v, a)[b] == Remove(v[b], v[a][0]);
      }
    } else {
      var j :| 0 <= j < 81 && |Eliminate(v)[j]| == 0;
      EliminateEmptied(v, 81, j);
      var a :| 0 <= a < 81 && IsPeer(a, j) && v[a] == v[j];
      assert !PeersDiffer(v);
    }
  }

  lemma EliminateAllSolvedUnchanged(v: Values)
    requires AllSolved(v) && !HasEmpty(Eliminate(v))
    ensures forall n :: 0 <= n <= 81 ==> EliminateUpTo(v, n) == v
  {
    forall n | 0 <= n <= 81 ensures EliminateUpTo(v, n) == v {
      EliminateUpToShrinks(v, 0, n);
      EliminateUpToShrinks(v, n, 81);
      var w := EliminateUpTo(v, n);
      forall i | 0 <= i < 81 ensures w[i] == v[i] {
        SubseqOfShort(w[i], v[i]);
        SubseqFacts(Eliminate(v)[i], w[i]);
        assert |Eliminate(v)[i]| != 0;
      }
    }
  }

  /** On a solved grid a box is emptied only by a peer holding its digit. */
  lemma {:induction false} EliminateEmptied(v: Values, n: nat, j: Box)
    requires AllSolved(v) && n <= 81
    requires EliminateUpTo(v, n)[j] == []
    ensures exists a :: 0 <= a < 81 && IsPeer(a, j) && v[a] == v[j]
  {
    assert v[j] == [v[j][0]];
    EliminateUpToDeletesSolved(v, n, j, v[j][0]);
    var k :| 0 <= k < n && IsPeer(k, j) && EliminateUpTo(v, k)[k] == [v[j][0]];
    EliminateUpToShrinks(v, 0, k);
    SubseqOfShort(EliminateUpTo(v, k)[k], v[k]);
  }
}
