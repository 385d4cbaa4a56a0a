/**
 The `Array.prototype.filter` the three tab pages use, over Dafny sequences,
 with the facts the pages rely on: membership, order preservation (the
 result is a subsequence of the input, witnessed by increasing indices),
 complementary filters partitioning the input, and filter fusion.
 */
module Filtering {

  /** The elements of `s` that satisfy `p`, in their original order. */
  function Filter<T(==, !new)>(s: seq<T>, p: T -> bool): (r: seq<T>)
    ensures |r| <= |s|
    ensures forall i :: 0 <= i < |r| ==> p(r[i])
    ensures forall x :: x in r <==> x in s && p(x)
    decreases |s|
  {
    if |s| == 0 then []
    else
      var rest := Filter(s[1..], p);
      assert forall x :: x in s <==> x == s[0] || x in s[1..];
      (if p(s[0]) then [s[0]] else []) + rest
  }

  /** Every index of `idx` is smaller than every later one. */
  predicate Increasing(idx: seq<nat>) {
    forall i, j :: 0 <= i < j < |idx| ==> idx[i] < idx[j]
  }

  /** `idx` places each element of `a` at an equal element of `b`, keeping
      their relative order. */
  predicate Embeds<T(==)>(a: seq<T>, b: seq<T>, idx: seq<nat>) {
    && |idx| == |a|
    && Increasing(idx)
    && forall i :: 0 <= i < |a| ==> idx[i] < |b| && a[i] == b[idx[i]]
  }

  /** `a` is obtained from `b` by deleting elements. */
  ghost predicate IsSubsequence<T>(a: seq<T>, b: seq<T>) {
    exists idx :: Embeds(a, b, idx)
  }

  /** Every index moved one place to the right. */
  function Shift(idx: seq<nat>): seq<nat>
  {
    seq(|idx|, i requires 0 <= i < |idx| => idx[i] + 1)
  }

  /** The positions in `s` of the elements `Filter` keeps. */
  function FilterIndices<T>(s: seq<T>, p: T -> bool): seq<nat>
    decreases |s|
  {
    if |s| == 0 then []
    else (if p(s[0]) then [0] else []) + Shift(FilterIndices(s[1..], p))
  }

  /** An embedding into the tail of `b` is, shifted by one, an embedding
      into `b` that avoids position 0. */
  lemma ShiftEmbeds<T>(a: seq<T>, b: seq<T>, idx: seq<nat>)
    requires |b| > 0 && Embeds(a, b[1..], idx)
    ensures Embeds(a, b, Shift(idx))
    ensures forall i :: 0 <= i < |idx| ==> 0 < Shift(idx)[i]
  {
    var shifted := Shift(idx);
    forall i | 0 <= i < |a|
      ensures shifted[i] < |b| && a[i] == b[shifted[i]]
    {
      assert a[i] == b[1..][idx[i]];
    }
  }

  /** An embedding avoiding position 0 extends to one of `[b[0]] + a`. */
  lemma ConsEmbeds<T>(a: seq<T>, b: seq<T>, idx: seq<nat>)
    requires |b| > 0 && Embeds(a, b, idx)
    requires forall i :: 0 <= i < |idx| ==> 0 < idx[i]
    ensures Embeds([b[0]] + a, b, [0] + idx)
  {
    var r, ix := [b[0]] + a, [0] + idx;
    assert forall i :: 0 < i < |ix| ==> ix[i] == idx[i - 1] && r[i] == a[i - 1];
  }

  /** `Filter` keeps exactly the elements at `FilterIndices`, in order. */
  lemma {:induction false} FilterEmbeds<T(!new)>(s: seq<T>, p: T -> bool)
    ensures Embeds(Filter(s, p), s, FilterIndices(s, p))
    decreases |s|
  {
    if |s| > 0 {
      var rest, idx := Filter(s[1..], p), FilterIndices(s[1..], p);
      FilterEmbeds(s[1..], p);
      ShiftEmbeds(rest, s, idx);
      if p(s[0]) {
        ConsEmbeds(rest, s, Shift(idx));
        assert Filter(s, p) == [s[0]] + rest;
      } else {
        assert Filter(s, p) == rest;
      }
    }
  }

  /** Order preservation: a filtered sequence is a subsequence of its input. */
  lemma FilterIsSubsequence<T(!new)>(s: seq<T>, p: T -> bool)
    ensures IsSubsequence(Filter(s, p), s)
  {
    FilterEmbeds(s, p);
  }

  /** Two complementary filters split the input: their lengths add up and,
      counted with multiplicity, together they hold exactly the input. */
  lemma {:induction false} FilterPartition<T(!new)>(s: seq<T>, p: T -> bool, q: T -> bool)
    requires forall x :: q(x) == !p(x)
    ensures |Filter(s, p)| + |Filter(s, q)| == |s|
    ensures multiset(Filter(s, p)) + multiset(Filter(s, q)) == multiset(s)
    decreases |s|
  {
    if |s| > 0 {
      FilterPartition(s[1..], p, q);
      assert s == [s[0]] + s[1..];
    }
  }

  /** Filtering the result of a filter is one filter by the conjunction. */
  lemma {:induction false} FilterFilter<T(!new)>(s: seq<T>, p: T -> bool, q: T -> bool, pq: T -> bool)
    requires forall x :: pq(x) == (p(x) && q(x))
    ensures Filter(Filter(s, p), q) == Filter(s, pq)
    decreases |s|
  {
    if |s| > 0 {
      FilterFilter(s[1..], p, q, pq);
      assert pq(s[0]) == (p(s[0]) && q(s[0]));
      var fp := Filter(s, p);
      if p(s[0]) {
        assert fp == [s[0]] + Filter(s[1..], p);
        assert fp[0] == s[0] && fp[1..] == Filter(s[1..], p);
      } else {
        assert fp == Filter(s[1..], p);
      }
    }
  }

  /** A filter only looks at the elements it is given: two predicates that
      agree on the input keep the same elements. */
  lemma {:induction false} FilterAgreeing<T(!new)>(s: seq<T>, p: T -> bool, q: T -> bool)
    requires forall x :: x in s ==> p(x) == q(x)
    ensures Filter(s, p) == Filter(s, q)
    decreases |s|
  {
    if |s| > 0 {
      assert forall x :: x in s[1..] ==> x in s;
      FilterAgreeing(s[1..], p, q);
    }
  }

  /** A filter that every element passes is the identity. */
  lemma {:induction false} FilterKeepsAll<T(!new)>(s: seq<T>, p: T -> bool)
    requires forall x :: x in s ==> p(x)
    ensures Filter(s, p) == s
    decreases |s|
  {
    if |s| > 0 {
      assert forall x :: x in s[1..] ==> x in s;
      FilterKeepsAll(s[1..], p);
      assert s == [s[0]] + s[1..];
    }
  }
}
