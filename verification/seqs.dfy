/** Order-preserving selection from a sequence, as Python list
    comprehensions with a condition and JavaScript `Array.prototype.filter`
    compute it. */
module Seqs {

  /** `a` can be obtained from `b` by deleting elements. */
  predicate IsSubseq<T(==,!new)>(a: seq<T>, b: seq<T>)
    decreases |b|
  {
    if |a| == 0 then true
    else if |b| == 0 then false
    else if a[0] == b[0] then IsSubseq(a[1..], b[1..])
    else IsSubseq(a, b[1..])
  }

  /** Every sequence is a subsequence of itself. */
  lemma {:induction false} SubseqRefl<T(!new)>(s: seq<T>)
    ensures IsSubseq(s, s)
  {
    if |s| > 0 {
      SubseqRefl(s[1..]);
    }
  }

  /** The elements of `s` satisfying `p`, in their original order. */
  function Filter<T(==,!new)>(s: seq<T>, p: T -> bool): (r: seq<T>)
    ensures |r| <= |s|
    ensures forall x :: x in r <==> x in s && p(x)
    ensures forall i | 0 <= i < |r| :: p(r[i])
  {
    if |s| == 0 then []
    else if p(s[0]) then [s[0]] + Filter(s[1..], p)
    else Filter(s[1..], p)
  }

  /** Filtering keeps the original order. */
  lemma {:induction false} FilterIsSubseq<T(!new)>(s: seq<T>, p: T -> bool)
    ensures IsSubseq(Filter(s, p), s)
  {
    if |s| > 0 {
      FilterIsSubseq(s[1..], p);
      var r := Filter(s, p);
      if p(s[0]) {
        assert r[1..] == Filter(s[1..], p);
      }
    }
  }

  /** Filtering twice with the same condition is filtering once. */
  lemma {:induction false} FilterIdempotent<T(!new)>(s: seq<T>, p: T -> bool)
    ensures Filter(Filter(s, p), p) == Filter(s, p)
  {
    if |s| > 0 {
      FilterIdempotent(s[1..], p);
      if p(s[0]) {
        assert (([s[0]] + Filter(s[1..], p)))[1..] == Filter(s[1..], p);
      }
    }
  }

  /** A condition no element meets leaves nothing. */
  lemma {:induction false} FilterNone<T(!new)>(s: seq<T>, p: T -> bool)
    requires forall i | 0 <= i < |s| :: !p(s[i])
    ensures Filter(s, p) == []
  {
    if |s| > 0 {
      FilterNone(s[1..], p);
    }
  }

  /** A condition every element meets keeps the whole sequence. */
  lemma {:induction false} FilterAll<T(!new)>(s: seq<T>, p: T -> bool)
    requires forall i | 0 <= i < |s| :: p(s[i])
    ensures Filter(s, p) == s
  {
    if |s| > 0 {
      FilterAll(s[1..], p);
    }
  }

  /** No duplicates. */
  predicate Distinct<T(==,!new)>(s: seq<T>) {
    forall i, j | 0 <= i < j < |s| :: s[i] != s[j]
  }

  /** Filtering a sequence without duplicates gives one without duplicates. */
  lemma {:induction false} FilterDistinct<T(!new)>(s: seq<T>, p: T -> bool)
    requires Distinct(s)
    ensures Distinct(Filter(s, p))
  {
    if |s| > 0 {
      assert Distinct(s[1..]) by {
        assert forall i | 0 <= i < |s| - 1 :: s[1..][i] == s[i + 1];
      }
      FilterDistinct(s[1..], p);
      var rest := Filter(s[1..], p);
      if p(s[0]) {
        assert s[0] !in s[1..];
        assert s[0] !in rest;
        var r := [s[0]] + rest;
        forall i, j | 0 <= i < j < |r| ensures r[i] != r[j] {
          if i == 0 {
            assert r[j] == rest[j - 1];
          } else {
            assert r[i] == rest[i - 1] && r[j] == rest[j - 1];
          }
        }
      }
    }
  }

  /** The sequence with later repetitions of an element removed. */
  function Dedup<T(==,!new)>(s: seq<T>): (r: seq<T>)
    ensures Distinct(r)
    ensures forall x :: x in r <==> x in s
    ensures |r| <= |s|
  {
    if |s| == 0 then []
    else
      var rest := Dedup(s[..|s| - 1]);
      var last := s[|s| - 1];
      assert forall x :: x in s <==> x in s[..|s| - 1] || x == last by {
        assert s == s[..|s| - 1] + [last];
      }
      if last in rest then rest
      else
        var r := rest + [last];
        assert forall i | 0 <= i < |rest| :: r[i] == rest[i];
        r
  }

  /** Python `s[start:]` for a possibly negative `start`: a suffix of `s`,
      the last `-start` elements for a negative start, and all but the first
      `start` otherwise. */
  function PySliceFrom<T>(s: seq<T>, start: int): (r: seq<T>)
    ensures |r| <= |s| && r == s[|s| - |r|..]
    ensures start < 0 ==> |r| == (if -start < |s| then -start else |s|)
    ensures start >= 0 ==> |r| == (if start < |s| then |s| - start else 0)
  {
    if start < 0 then s[if |s| + start < 0 then 0 else |s| + start..]
    else s[if start > |s| then |s| else start..]
  }
}
