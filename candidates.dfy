/**
 A box's candidates are a string of digits. This module holds the string
 operations the strategies use (`str.replace(d, '')`, character counts,
 the order in which a dictionary first sees its keys) and the relation
 "obtained by deleting characters" that every strategy keeps.
 */
module Candidates {

  /** `s.replace(d, '')` for a one-character `d`: every `d` filtered out. */
  function Remove(s: string, d: char): (r: string)
    ensures forall c :: c in r <==> c in s && c != d
    ensures |r| <= |s|
  {
    if s == [] then []
    else (if s[0] == d then [] else [s[0]]) + Remove(s[1..], d)
  }

  /** `t` is `s` with zero or more characters deleted. */
  predicate Subseq(t: string, s: string)
    decreases |s|
  {
    if t == [] then true
    else if s == [] then false
    else if t[0] == s[0] then Subseq(t[1..], s[1..])
    else Subseq(t, s[1..])
  }

  lemma {:induction false} RemoveSubseq(s: string, d: char)
    ensures Subseq(Remove(s, d), s)
  {
    if s != [] {
      RemoveSubseq(s[1..], d);
      if s[0] != d {
        assert Remove(s, d) == [s[0]] + Remove(s[1..], d);
        assert Remove(s, d)[1..] == Remove(s[1..], d);
      } else {
        assert Remove(s, d) == Remove(s[1..], d);
        SubseqSkip(Remove(s[1..], d), s);
      }
    }
  }

  lemma {:induction false} SubseqRefl(s: string)
    ensures Subseq(s, s)
  {
    if s != [] {
      SubseqRefl(s[1..]);
    }
  }

  /** Deleting the first character of `t` keeps it a subsequence. */
  lemma {:induction false} SubseqTail(t: string, s: string)
    requires t != [] && Subseq(t, s)
    ensures Subseq(t[1..], s)
    decreases |s|, |t|
  {
    if t[0] == s[0] {
      SubseqSkip(t[1..], s);
    } else {
      SubseqTail(t, s[1..]);
      SubseqSkip(t[1..], s);
    }
  }

  /** A subsequence of `s[1..]` is a subsequence of `s`. */
  lemma {:induction false} SubseqSkip(t: string, s: string)
    requires s != [] && Subseq(t, s[1..])
    ensures Subseq(t, s)
    decreases |s|, |t|
  {
    if t != [] && t[0] == s[0] {
      SubseqTail(t, s[1..]);
    }
  }

  lemma {:induction false} SubseqTrans(a: string, b: string, c: string)
    requires Subseq(a, b) && Subseq(b, c)
    ensures Subseq(a, c)
    decreases |c|
  {
    if a != [] {
      if b[0] == c[0] {
        if a[0] == b[0] {
          SubseqTrans(a[1..], b[1..], c[1..]);
        } else {
          SubseqTrans(a, b[1..], c[1..]);
          SubseqSkip(a, c);
        }
      } else {
        SubseqTrans(a, b, c[1..]);
        SubseqSkip(a, c);
      }
    }
  }

  /** Deleting characters never adds one, and never lengthens the string. */
  lemma {:induction false} SubseqFacts(t: string, s: string)
    requires Subseq(t, s)
    ensures |t| <= |s|
    ensures forall c :: c in t ==> c in s
    decreases |s|
  {
    if t != [] {
      if t[0] == s[0] {
        SubseqFacts(t[1..], s[1..]);
        assert t == [t[0]] + t[1..];
        assert s == [s[0]] + s[1..];
      } else {
        SubseqFacts(t, s[1..]);
        assert s == [s[0]] + s[1..];
      }
    }
  }

  /** What deletion leaves of a solved or an empty box. */
  lemma SubseqOfShort(t: string, s: string)
    requires Subseq(t, s) && |s| <= 1
    ensures t == [] || t == s
  {
    SubseqFacts(t, s);
    if t != [] {
      assert t[0] in s;
    }
  }

  lemma {:induction false} SingletonSubseq(c: char, s: string)
    requires c in s
    ensures Subseq([c], s)
    decreases |s|
  {
    if s[0] != c {
      SingletonSubseq(c, s[1..]);
    }
  }

  /** How many times `c` occurs in `s` (a frequency-table entry). */
  function Occurrences(s: string, c: char): nat
  {
    if s == [] then 0
    else Occurrences(s[..|s| - 1], c) + (if s[|s| - 1] == c then 1 else 0)
  }

  lemma {:induction false} OccurrencesAppend(a: string, b: string, c: char)
    ensures Occurrences(a + b, c) == Occurrences(a, c) + Occurrences(b, c)
    decreases |b|
  {
    if b != [] {
      var b' := b[..|b| - 1];
      assert (a + b)[..|a + b| - 1] == a + b';
      assert (a + b)[|a + b| - 1] == b[|b| - 1];
      OccurrencesAppend(a, b', c);
    } else {
      assert a + b == a;
    }
  }

  lemma {:induction false} OccurrencesPositive(s: string, c: char)
    ensures c in s <==> Occurrences(s, c) > 0
  {
    if s != [] {
      OccurrencesPositive(s[..|s| - 1], c);
      assert s == s[..|s| - 1] + [s[|s| - 1]];
    }
  }

  /** The keys of a dictionary filled from `s` one character at a time, in
      the order the dictionary first saw them. */
  function FirstOccurrences(s: string): string
  {
    if s == [] then []
    else
      var keys := FirstOccurrences(s[..|s| - 1]);
      if s[|s| - 1] in keys then keys else keys + [s[|s| - 1]]
  }

  lemma {:induction false} FirstOccurrencesSpec(s: string)
    ensures forall c :: c in FirstOccurrences(s) <==> c in s
    ensures forall i, j :: 0 <= i < j < |FirstOccurrences(s)| ==>
              FirstOccurrences(s)[i] != FirstOccurrences(s)[j]
  {
    if s != [] {
      FirstOccurrencesSpec(s[..|s| - 1]);
      assert s == s[..|s| - 1] + [s[|s| - 1]];
    }
  }
}
