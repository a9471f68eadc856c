/** Sequence helpers: the list-comprehension filter and the subsequence
    relation used to state "in the same order". */
module Seqs {

  /** `[x for x in s if keep(x)]`: the elements that satisfy `keep`, in order. */
  function Filter<T>(keep: T -> bool, s: seq<T>): (r: seq<T>)
    ensures |r| <= |s|
    ensures forall i :: 0 <= i < |r| ==> keep(r[i]) && r[i] in s
    ensures forall x | x in s :: multiset(r)[x] == if keep(x) then multiset(s)[x] else 0
  {
    if s == [] then []
    else
      var rest := Filter(keep, s[1..]);
      assert s == [s[0]] + s[1..];
      if keep(s[0]) then [s[0]] + rest else rest
  }

  /** `idx` picks, strictly increasingly, positions of `s` holding `a` in order. */
  ghost predicate Embedding<T>(a: seq<T>, s: seq<T>, idx: seq<nat>)
  {
    && |idx| == |a|
    && (forall k :: 0 <= k < |idx| ==> idx[k] < |s| && s[idx[k]] == a[k])
    && (forall j, k :: 0 <= j < k < |idx| ==> idx[j] < idx[k])
  }

  /** `a` occurs in `s` in the same order, possibly with other elements between. */
  ghost predicate IsSubseq<T>(a: seq<T>, s: seq<T>)
  {
    exists idx :: Embedding(a, s, idx)
  }

  lemma SubseqEmpty<T>(s: seq<T>)
    ensures IsSubseq([], s)
  {
    assert Embedding([], s, []);
  }

  /** Appending to the larger sequence keeps an embedding. */
  lemma SubseqExtend<T>(a: seq<T>, s: seq<T>, t: seq<T>)
    requires IsSubseq(a, s)
    ensures IsSubseq(a, s + t)
  {
    var idx :| Embedding(a, s, idx);
    assert Embedding(a, s + t, idx);
  }

  /** Appending the same suffix to both sides keeps an embedding. */
  lemma SubseqAppendBoth<T>(a: seq<T>, s: seq<T>, b: seq<T>)
    requires IsSubseq(a, s)
    ensures IsSubseq(a + b, s + b)
  {
    var idx :| Embedding(a, s, idx);
    var idx' := idx + seq(|b|, i => |s| + i);
    assert Embedding(a + b, s + b, idx');
  }

  /** Prepending to the larger sequence keeps an embedding. */
  lemma SubseqSkipFront<T>(x: T, a: seq<T>, s: seq<T>)
    requires IsSubseq(a, s)
    ensures IsSubseq(a, [x] + s)
  {
    var idx :| Embedding(a, s, idx);
    var idx' := seq(|idx|, k requires 0 <= k < |idx| => idx[k] + 1);
    assert Embedding(a, [x] + s, idx');
  }

  /** Prepending the same element to both sides keeps an embedding. */
  lemma SubseqConsBoth<T>(x: T, a: seq<T>, s: seq<T>)
    requires IsSubseq(a, s)
    ensures IsSubseq([x] + a, [x] + s)
  {
    var idx :| Embedding(a, s, idx);
    var idx' := [0] + seq(|idx|, k requires 0 <= k < |idx| => idx[k] + 1);
    assert Embedding([x] + a, [x] + s, idx');
  }

  /** A filtered sequence keeps the order of its source. */
  lemma {:induction false} FilterIsSubseq<T>(keep: T -> bool, s: seq<T>)
    ensures IsSubseq(Filter(keep, s), s)
    decreases |s|
  {
    if s == [] {
      SubseqEmpty(s);
    } else {
      FilterIsSubseq(keep, s[1..]);
      assert s == [s[0]] + s[1..];
      if keep(s[0]) {
        SubseqConsBoth(s[0], Filter(keep, s[1..]), s[1..]);
      } else {
        SubseqSkipFront(s[0], Filter(keep, s[1..]), s[1..]);
      }
    }
  }

  /** Filtering by a stronger condition makes a prior filter by a weaker one
      redundant. */
  lemma {:induction false} FilterSubsumes<T>(keep: T -> bool, weaker: T -> bool, s: seq<T>)
    requires forall x :: keep(x) ==> weaker(x)
    ensures Filter(keep, Filter(weaker, s)) == Filter(keep, s)
    decreases |s|
  {
    if s != [] {
      FilterSubsumes(keep, weaker, s[1..]);
      if weaker(s[0]) {
        assert ([s[0]] + Filter(weaker, s[1..]))[1..] == Filter(weaker, s[1..]);
      }
    }
  }

  /** An empty filter result means no element passes. */
  lemma FilterEmpty<T>(keep: T -> bool, s: seq<T>)
    requires Filter(keep, s) == []
    ensures forall i :: 0 <= i < |s| ==> !keep(s[i])
  {
    forall i | 0 <= i < |s|
      ensures !keep(s[i])
    {
      assert s[i] in s;
      assert multiset(Filter(keep, s))[s[i]] == 0;
    }
  }
}
