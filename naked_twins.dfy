/**
 The naked-twins strategy: unit by unit, a dictionary groups the unit's boxes
 by their value when it has two characters; for every such value held by two
 or more boxes (taken in the order the dictionary first saw them) the first two
 of those boxes are kept and every other box of the unit loses both digits.
 */
module NakedTwinsStrategy {
  import opened Units
  import opened Candidates
  import opened Grid

  /** The dictionary's keys: the unit's two-character values, in the order first seen. */
  function TwinValues(v: Values, unit: seq<Box>): (r: seq<string>)
    requires |v| == 81
    ensures forall k :: 0 <= k < |r| ==> |r[k]| == 2
  {
    if unit == [] then []
    else
      var keys := TwinValues(v, unit[..|unit| - 1]);
      var x := v[unit[|unit| - 1]];
      if |x| == 2 && x !in keys then keys + [x] else keys
  }

  /** The dictionary's entry for `p`: the unit's boxes holding `p`, in unit order. */
  function TwinBoxes(v: Values, unit: seq<Box>, p: string): seq<Box>
    requires |v| == 81
  {
    if unit == [] then []
    else
      TwinBoxes(v, unit[..|unit| - 1], p) +
      (if v[unit[|unit| - 1]] == p then [unit[|unit| - 1]] else [])
  }

  /** Both digits of `p` deleted from every box of the unit outside `reserved`. */
  function StripPair(w: Values, unit: seq<Box>, p: string, reserved: seq<Box>): (r: Values)
    requires |w| == 81 && |p| == 2
    ensures |r| == 81
  {
    seq(81, i requires 0 <= i < 81 =>
      if i in unit && i !in reserved then Remove(Remove(w[i], p[0]), p[1]) else w[i])
  }

  /** The keys `pairs` taken in order on `w`; `v` is what the dictionary was built from. */
  function ApplyTwins(v: Values, w: Values, unit: seq<Box>, pairs: seq<string>): (r: Values)
    requires |v| == 81 && |w| == 81
    requires forall k :: 0 <= k < |pairs| ==> |pairs[k]| == 2
    ensures |r| == 81
  {
    if pairs == [] then w
    else
      var w' := ApplyTwins(v, w, unit, pairs[..|pairs| - 1]);
      var p := pairs[|pairs| - 1];
      var boxes := TwinBoxes(v, unit, p);
      if |boxes| >= 2 then StripPair(w', unit, p, boxes[..2]) else w'
  }

  function NakedTwinsUnit(v: Values, unit: seq<Box>): (r: Values)
    requires |v| == 81
    ensures |r| == 81
  {
    ApplyTwins(v, v, unit, TwinValues(v, unit))
  }

  /** The units processed in order, each on the values the previous left. */
  function NakedTwinsUnits(v: Values, units: seq<seq<Box>>): (r: Values)
    requires |v| == 81
    ensures |r| == 81
  {
    if units == [] then v
    else NakedTwinsUnit(NakedTwinsUnits(v, units[..|units| - 1]), units[|units| - 1])
  }

  function NakedTwins(v: Values): (r: Values)
    requires |v| == 81
    ensures |r| == 81
  {
    NakedTwinsUnits(v, UnitList())
  }

  /** A pair is acted on when two or more boxes of the unit hold it. */
  ghost predicate Active(v: Values, unit: seq<Box>, p: string)
    requires |v| == 81
  {
    |p| == 2 && |TwinBoxes(v, unit, p)| >= 2
  }

  function Reserved(v: Values, unit: seq<Box>, p: string): seq<Box>
    requires |v| == 81 && |TwinBoxes(v, unit, p)| >= 2
  {
    TwinBoxes(v, unit, p)[..2]
  }

  /** The dictionary's keys are exactly the two-character values held by boxes
      of the unit, each listed once. */
  lemma {:induction false} TwinValuesSpec(v: Values, unit: seq<Box>)
    requires |v| == 81
    ensures forall p :: p in TwinValues(v, unit) <==>
              |p| == 2 && exists j :: 0 <= j < |unit| && v[unit[j]] == p
    ensures Distinct(TwinValues(v, unit))
  {
    if unit != [] {
      var front := unit[..|unit| - 1];
      var last := unit[|unit| - 1];
      TwinValuesSpec(v, front);
      forall p ensures p in TwinValues(v, unit) <==>
                       |p| == 2 && exists j :: 0 <= j < |unit| && v[unit[j]] == p
      {
        if p in TwinValues(v, unit) {
          if p in TwinValues(v, front) {
            var j :| 0 <= j < |front| && v[front[j]] == p;
            assert unit[j] == front[j];
          } else {
            assert v[unit[|unit| - 1]] == p;
          }
        }
        if |p| == 2 && exists j :: 0 <= j < |unit| && v[unit[j]] == p {
          var j :| 0 <= j < |unit| && v[unit[j]] == p;
          if j < |front| {
            assert front[j] == unit[j];
          }
        }
      }
    }
  }

  /** The dictionary's entry for `p` lists exactly the boxes of the unit that
      hold `p`, each once when the unit has no repeated box. */
  lemma {:induction false} TwinBoxesSpec(v: Values, unit: seq<Box>, p: string)
    requires |v| == 81
    ensures forall j :: 0 <= j < |TwinBoxes(v, unit, p)| ==>
              TwinBoxes(v, unit, p)[j] in unit && v[TwinBoxes(v, unit, p)[j]] == p
    ensures forall j :: 0 <= j < |unit| && v[unit[j]] == p ==> unit[j] in TwinBoxes(v, unit, p)
    ensures Distinct(unit) ==> Distinct(TwinBoxes(v, unit, p))
  {
    if unit != [] {
      var front := unit[..|unit| - 1];
      var last := unit[|unit| - 1];
      TwinBoxesSpec(v, front, p);
      assert forall j :: 0 <= j < |TwinBoxes(v, front, p)| ==> TwinBoxes(v, front, p)[j] in front;
      assert forall x :: x in front ==> x in unit;
      forall j | 0 <= j < |unit| && v[unit[j]] == p ensures unit[j] in TwinBoxes(v, unit, p) {
        if j < |front| {
          assert front[j] == unit[j];
        }
      }
      if Distinct(unit) {
        assert Distinct(front);
        assert last !in front;
      }
    }
  }

  lemma StripPairShrinks(w: Values, unit: seq<Box>, p: string, reserved: seq<Box>)
    requires |w| == 81 && |p| == 2
    ensures Shrinks(w, StripPair(w, unit, p, reserved))
    ensures forall i :: 0 <= i < 81 && i !in unit ==> StripPair(w, unit, p, reserved)[i] == w[i]
  {
    var r := StripPair(w, unit, p, reserved);
    forall i | 0 <= i < 81 ensures Subseq(r[i], w[i]) {
      if i in unit && i !in reserved {
        RemoveSubseq(w[i], p[0]);
        RemoveSubseq(Remove(w[i], p[0]), p[1]);
        SubseqTrans(r[i], Remove(w[i], p[0]), w[i]);
      } else {
        SubseqRefl(w[i]);
      }
    }
  }

  /** Processing more keys only deletes candidates, and only inside the unit. */
  lemma {:induction false} ApplyTwinsShrinks(v: Values, w: Values, unit: seq<Box>,
                                             pairs: seq<string>, m: nat)
    requires |v| == 81 && |w| == 81 && m <= |pairs|
    requires forall k :: 0 <= k < |pairs| ==> |pairs[k]| == 2
    ensures Shrinks(ApplyTwins(v, w, unit, pairs[..m]), ApplyTwins(v, w, unit, pairs))
    ensures forall i :: 0 <= i < 81 && i !in unit ==>
              ApplyTwins(v, w, unit, pairs)[i] == ApplyTwins(v, w, unit, pairs[..m])[i]
  {
    if m == |pairs| {
      assert pairs[..m] == pairs;
      ShrinksRefl(ApplyTwins(v, w, unit, pairs));
    } else {
      var front := pairs[..|pairs| - 1];
      var p := pairs[|pairs| - 1];
      assert front[..m] == pairs[..m];
      ApplyTwinsShrinks(v, w, unit, front, m);
      var w' := ApplyTwins(v, w, unit, front);
      var boxes := TwinBoxes(v, unit, p);
      if |boxes| >= 2 {
        StripPairShrinks(w', unit, p, boxes[..2]);
        ShrinksTrans(ApplyTwins(v, w, unit, pairs[..m]), w', ApplyTwins(v, w, unit, pairs));
      }
    }
  }

  /** Naked twins only deletes candidates; boxes outside the unit keep theirs. */
  lemma NakedTwinsUnitShrinks(v: Values, unit: seq<Box>)
    requires |v| == 81
    ensures Shrinks(v, NakedTwinsUnit(v, unit))
    ensures forall i :: 0 <= i < 81 && i !in unit ==> NakedTwinsUnit(v, unit)[i] == v[i]
  {
    var pairs := TwinValues(v, unit);
    ApplyTwinsShrinks(v, v, unit, pairs, 0);
    assert pairs[..0] == [];
  }

  lemma StripPairClears(w: Values, unit: seq<Box>, p: string, reserved: seq<Box>, b: Box)
    requires |w| == 81 && |p| == 2 && b in unit && b !in reserved
    ensures p[0] !in StripPair(w, unit, p, reserved)[b] && p[1] !in StripPair(w, unit, p, reserved)[b]
  {
    assert StripPair(w, unit, p, reserved)[b] == Remove(Remove(w[b], p[0]), p[1]);
  }

  /** A two-character value held by some box of the unit is a key. */
  lemma ActiveIsKey(v: Values, unit: seq<Box>, p: string)
    requires |v| == 81 && |p| == 2 && |TwinBoxes(v, unit, p)| >= 1
    ensures p in TwinValues(v, unit)
  {
    TwinBoxesSpec(v, unit, p);
    var first := TwinBoxes(v, unit, p)[0];
    var j :| 0 <= j < |unit| && unit[j] == first;
    TwinValuesSpec(v, unit);
  }

  /** Once the unit is processed, no box of it other than the first two holding
      a two-character value held by two or more of its boxes keeps either digit
      of that value. */
  lemma NakedTwinsUnitClears(v: Values, unit: seq<Box>, p: string, b: Box)
    requires |v| == 81
    requires |p| == 2 && |TwinBoxes(v, unit, p)| >= 2
    requires b in unit && b !in Reserved(v, unit, p)
    ensures p[0] !in NakedTwinsUnit(v, unit)[b] && p[1] !in NakedTwinsUnit(v, unit)[b]
  {
    ActiveIsKey(v, unit, p);
    var pairs := TwinValues(v, unit);
    var t :| 0 <= t < |pairs| && pairs[t] == p;
    var prefix := pairs[..t + 1];
    assert prefix[..t] == pairs[..t] && prefix[t] == p;
    var w0 := ApplyTwins(v, v, unit, pairs[..t]);
    var w := ApplyTwins(v, v, unit, prefix);
    assert w == StripPair(w0, unit, p, Reserved(v, unit, p));
    StripPairClears(w0, unit, p, Reserved(v, unit, p), b);
    ApplyTwinsShrinks(v, v, unit, pairs, t + 1);
    assert Subseq(NakedTwinsUnit(v, unit)[b], w[b]);
    SubseqFacts(NakedTwinsUnit(v, unit)[b], w[b]);
  }

  /** A box kept for pair `p` loses a digit only to another acted-on pair of
      the same unit that holds that digit. */
  lemma {:induction false} ApplyTwinsReserved(v: Values, w: Values, unit: seq<Box>,
                                              pairs: seq<string>, p: string, b: Box, c: char)
    requires |v| == 81 && |w| == 81
    requires forall k :: 0 <= k < |pairs| ==> |pairs[k]| == 2
    requires |TwinBoxes(v, unit, p)| >= 2 && b in Reserved(v, unit, p)
    requires c in w[b] && c !in ApplyTwins(v, w, unit, pairs)[b]
    ensures exists q :: q in pairs && q != p && Active(v, unit, q) && c in q
  {
    if pairs != [] {
      var front := pairs[..|pairs| - 1];
      var q := pairs[|pairs| - 1];
      var w' := ApplyTwins(v, w, unit, front);
      var r := ApplyTwins(v, w, unit, pairs);
      if c !in w'[b] {
        ApplyTwinsReserved(v, w, unit, front, p, b, c);
        var q' :| q' in front && q' != p && Active(v, unit, q') && c in q';
        assert q' in pairs;
      } else {
        var boxes := TwinBoxes(v, unit, q);
        assert |boxes| >= 2 && r == StripPair(w', unit, q, boxes[..2]);
        assert b in unit && b !in boxes[..2];
        assert r[b] == Remove(Remove(w'[b], q[0]), q[1]);
        assert c == q[0] || c == q[1];
        assert q in pairs && Active(v, unit, q);
      }
    }
  }

  lemma NakedTwinsUnitReserved(v: Values, unit: seq<Box>, p: string, b: Box, c: char)
    requires |v| == 81
    requires |TwinBoxes(v, unit, p)| >= 2 && b in Reserved(v, unit, p)
    requires c in v[b] && c !in NakedTwinsUnit(v, unit)[b]
    ensures exists q :: q in TwinValues(v, unit) && q != p && Active(v, unit, q) && c in q
  {
    ApplyTwinsReserved(v, v, unit, TwinValues(v, unit), p, b, c);
  }

  lemma {:induction false} NakedTwinsUnitsShrinks(v: Values, units: seq<seq<Box>>)
    requires |v| == 81
    ensures Shrinks(v, NakedTwinsUnits(v, units))
  {
    if units == [] {
      ShrinksRefl(v);
    } else {
      var w := NakedTwinsUnits(v, units[..|units| - 1]);
      NakedTwinsUnitsShrinks(v, units[..|units| - 1]);
      NakedTwinsUnitShrinks(w, units[|units| - 1]);
      ShrinksTrans(v, w, NakedTwinsUnits(v, units));
    }
  }

  /** The whole pass only deletes candidates; every box keeps its key. */
  lemma NakedTwinsShrinks(v: Values)
    requires |v| == 81
    ensures Shrinks(v, NakedTwins(v))
  {
    NakedTwinsUnitsShrinks(v, UnitList());
  }
}
