/**
 The `values` dictionary, box name to candidate string, seen as the sequence of
 the 81 boxes' candidates in key order, and the measures the solver takes of
 it: how many boxes are solved, whether one is empty, how many candidates remain.
 */
module Grid {
  import opened Units
  import opened Candidates

  type Values = seq<string>

  /** A function that returns either `False` or a values dictionary. */
  datatype Option<T> = None | Some(value: T)

  /** Every box of `w` holds `v`'s candidates with zero or more deleted. */
  ghost predicate Shrinks(v: Values, w: Values)
  {
    |v| == 81 && |w| == 81 && forall i :: 0 <= i < 81 ==> Subseq(w[i], v[i])
  }

  /** Some box has no candidate left. */
  predicate HasEmpty(v: Values)
    requires |v| == 81
  {
    exists i :: 0 <= i < 81 && |v[i]| == 0
  }

  /** How many of the first `n` boxes hold exactly one digit. */
  function SolvedUpTo(v: Values, n: nat): nat
    requires n <= |v|
  {
    if n == 0 then 0
    else SolvedUpTo(v, n - 1) + (if |v[n - 1]| == 1 then 1 else 0)
  }

  function SolvedCount(v: Values): nat
    requires |v| == 81
  {
    SolvedUpTo(v, 81)
  }

  /** How many candidates the first `n` boxes hold together. */
  function LengthUpTo(v: Values, n: nat): nat
    requires n <= |v|
  {
    if n == 0 then 0 else LengthUpTo(v, n - 1) + |v[n - 1]|
  }

  function TotalLength(v: Values): nat
    requires |v| == 81
  {
    LengthUpTo(v, 81)
  }

  lemma ShrinksRefl(v: Values)
    requires |v| == 81
    ensures Shrinks(v, v)
  {
    forall i | 0 <= i < 81 ensures Subseq(v[i], v[i]) {
      SubseqRefl(v[i]);
    }
  }

  lemma ShrinksTrans(u: Values, v: Values, w: Values)
    requires Shrinks(u, v) && Shrinks(v, w)
    ensures Shrinks(u, w)
  {
    forall i | 0 <= i < 81 ensures Subseq(w[i], u[i]) {
      SubseqTrans(w[i], v[i], u[i]);
    }
  }

  /** An empty box stays empty, and when no box ends empty every solved box
      keeps its digit. */
  lemma ShrinksSolved(v: Values, w: Values)
    requires Shrinks(v, w)
    ensures HasEmpty(v) ==> HasEmpty(w)
    ensures !HasEmpty(w) ==> forall i :: 0 <= i < 81 && |v[i]| == 1 ==> w[i] == v[i]
  {
    forall i | 0 <= i < 81 && |v[i]| <= 1
      ensures w[i] == [] || w[i] == v[i]
    {
      SubseqOfShort(w[i], v[i]);
    }
    if HasEmpty(v) {
      var i :| 0 <= i < 81 && |v[i]| == 0;
      assert |w[i]| == 0;
    }
  }

  lemma {:induction false} SolvedUpToBound(v: Values, n: nat)
    requires n <= |v|
    ensures SolvedUpTo(v, n) <= n
    ensures SolvedUpTo(v, n) == n ==> forall i :: 0 <= i < n ==> |v[i]| == 1
  {
    if n > 0 {
      SolvedUpToBound(v, n - 1);
    }
  }

  lemma {:induction false} SolvedUpToAll(v: Values, n: nat)
    requires n <= |v|
    requires forall i :: 0 <= i < n ==> |v[i]| == 1
    ensures SolvedUpTo(v, n) == n
  {
    if n > 0 {
      SolvedUpToAll(v, n - 1);
    }
  }

  /** When every box solved in `v` is solved in `w`, `w` has at least as many
      solved boxes, and exactly as many only if it solved no other box. */
  lemma {:induction false} SolvedUpToMonotone(v: Values, w: Values, n: nat)
    requires n <= |v| && n <= |w|
    requires forall i :: 0 <= i < n && |v[i]| == 1 ==> |w[i]| == 1
    ensures SolvedUpTo(v, n) <= SolvedUpTo(w, n)
    ensures SolvedUpTo(v, n) == SolvedUpTo(w, n) ==>
              forall i :: 0 <= i < n && |w[i]| == 1 ==> |v[i]| == 1
  {
    if n > 0 {
      SolvedUpToMonotone(v, w, n - 1);
    }
  }

  lemma SolvedCountMonotone(v: Values, w: Values)
    requires Shrinks(v, w) && !HasEmpty(w)
    ensures SolvedCount(v) <= SolvedCount(w) <= 81
    ensures SolvedCount(v) == SolvedCount(w) ==>
              forall i :: 0 <= i < 81 && |w[i]| == 1 ==> |v[i]| == 1
  {
    ShrinksSolved(v, w);
    SolvedUpToMonotone(v, w, 81);
    SolvedUpToBound(w, 81);
  }

  lemma {:induction false} LengthUpToMonotone(v: Values, w: Values, n: nat)
    requires n <= |v| && n <= |w|
    requires forall i :: 0 <= i < n ==> |w[i]| <= |v[i]|
    ensures LengthUpTo(w, n) <= LengthUpTo(v, n)
  {
    if n > 0 {
      LengthUpToMonotone(v, w, n - 1);
    }
  }

  lemma {:induction false} LengthUpToUpdate(v: Values, k: nat, x: string, n: nat)
    requires k < |v| && n <= |v|
    ensures LengthUpTo(v[k := x], n) ==
              LengthUpTo(v, n) + (if k < n then |x| - |v[k]| else 0)
  {
    if n > 0 {
      LengthUpToUpdate(v, k, x, n - 1);
    }
  }

  /** Deleting candidates never raises the total, and fixing a box with more
      than one candidate to one of them lowers it. */
  lemma TotalLengthShrinks(v: Values, w: Values)
    requires Shrinks(v, w)
    ensures TotalLength(w) <= TotalLength(v)
  {
    forall i | 0 <= i < 81 ensures |w[i]| <= |v[i]| {
      SubseqFacts(w[i], v[i]);
    }
    LengthUpToMonotone(v, w, 81);
  }

  lemma TotalLengthAssign(v: Values, k: Box, d: char)
    requires |v| == 81 && |v[k]| > 1
    ensures TotalLength(v[k := [d]]) < TotalLength(v)
  {
    LengthUpToUpdate(v, k, [d], 81);
  }
}
