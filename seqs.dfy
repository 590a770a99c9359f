/**
 * Sequence helpers used by every stage of the pipeline: a boolean-mask
 * filter (what pandas and numpy indexing with a mask does) and the
 * subsequence relation that describes its result.
 */
module Seqs {

  /** `a` is obtained from `b` by deleting elements, keeping the rest in order. */
  predicate IsSubsequence<T(==)>(a: seq<T>, b: seq<T>)
    decreases |b|
  {
    a == [] || (b != [] && ((a[0] == b[0] && IsSubsequence(a[1..], b[1..])) || IsSubsequence(a, b[1..])))
  }

  lemma {:induction false} SubsequenceElements<T>(a: seq<T>, b: seq<T>)
    requires IsSubsequence(a, b)
    ensures |a| <= |b|
    ensures forall x :: x in a ==> x in b
    decreases |b|
  {
    if a != [] {
      if a[0] == b[0] && IsSubsequence(a[1..], b[1..]) {
        SubsequenceElements(a[1..], b[1..]);
        assert forall x :: x in a ==> x == a[0] || x in a[1..];
      } else {
        SubsequenceElements(a, b[1..]);
      }
    }
  }

  lemma {:induction false} SubsequenceRefl<T>(s: seq<T>)
    ensures IsSubsequence(s, s)
  {
    if s != [] {
      SubsequenceRefl(s[1..]);
    }
  }

  /** What a mask filter promises about its result `r`. */
  ghost predicate Filtered<T(!new)>(r: seq<T>, s: seq<T>, keep: T -> bool)
  {
    && |r| <= |s|
    && IsSubsequence(r, s)
    && (forall x :: x in r <==> x in s && keep(x))
    && (forall x :: multiset(r)[x] == if keep(x) then multiset(s)[x] else 0)
  }

  /** One step of the filter: the head is kept or dropped in front of a filtered tail. */
  lemma FilterStep<T(!new)>(s: seq<T>, keep: T -> bool, rest: seq<T>)
    requires s != [] && Filtered(rest, s[1..], keep)
    ensures Filtered((if keep(s[0]) then [s[0]] else []) + rest, s, keep)
  {
    var r := (if keep(s[0]) then [s[0]] else []) + rest;
    StepSubsequence(s, keep, rest);
    StepMultiset(s, keep, rest);
    forall x
      ensures x in r <==> x in s && keep(x)
    {
      assert x in r <==> multiset(r)[x] > 0;
      assert x in s <==> multiset(s)[x] > 0;
    }
  }

  lemma StepSubsequence<T>(s: seq<T>, keep: T -> bool, rest: seq<T>)
    requires s != [] && IsSubsequence(rest, s[1..])
    ensures IsSubsequence((if keep(s[0]) then [s[0]] else []) + rest, s)
  {
    var r := (if keep(s[0]) then [s[0]] else []) + rest;
    if keep(s[0]) {
      assert r[0] == s[0] && r[1..] == rest;
    } else {
      assert r == rest;
    }
  }

  lemma StepMultiset<T(!new)>(s: seq<T>, keep: T -> bool, rest: seq<T>)
    requires s != []
    requires forall x :: multiset(rest)[x] == if keep(x) then multiset(s[1..])[x] else 0
    ensures forall x :: multiset((if keep(s[0]) then [s[0]] else []) + rest)[x] == if keep(x) then multiset(s)[x] else 0
  {
    assert s == [s[0]] + s[1..];
    assert multiset(s) == multiset{s[0]} + multiset(s[1..]);
    var r := (if keep(s[0]) then [s[0]] else []) + rest;
    assert multiset(r) == (if keep(s[0]) then multiset{s[0]} else multiset{}) + multiset(rest);
  }

  /**
   * Keeps exactly the elements for which `keep` holds, in their original
   * order: s[mask] for a mask computed element-wise.
   */
  function Filter<T(==,!new)>(s: seq<T>, keep: T -> bool): (r: seq<T>)
    ensures |r| <= |s|
    ensures IsSubsequence(r, s)
    ensures forall x :: x in r <==> x in s && keep(x)
    ensures forall x :: multiset(r)[x] == if keep(x) then multiset(s)[x] else 0
    decreases |s|
  {
    if s == [] then []
    else
      var rest := Filter(s[1..], keep);
      FilterStep(s, keep, rest);
      (if keep(s[0]) then [s[0]] else []) + rest
  }

  lemma FilterCons<T(!new)>(x: T, s: seq<T>, keep: T -> bool)
    ensures Filter([x] + s, keep) == (if keep(x) then [x] else []) + Filter(s, keep)
  {
    assert ([x] + s)[0] == x;
    assert ([x] + s)[1..] == s;
  }

  /** Number of positions of `s` holding `x`. */
  function Occurrences<T(==)>(s: seq<T>, x: T): nat
  {
    if s == [] then 0 else (if s[0] == x then 1 else 0) + Occurrences(s[1..], x)
  }

  predicate Distinct<T(==)>(s: seq<T>)
  {
    forall i, j :: 0 <= i < j < |s| ==> s[i] != s[j]
  }

  lemma {:induction false} OccursOnce<T>(s: seq<T>, x: T)
    requires Distinct(s) && x in s
    ensures Occurrences(s, x) == 1
  {
    if s[0] == x {
      OccursNot(s[1..], x);
    } else {
      OccursOnce(s[1..], x);
    }
  }

  lemma {:induction false} OccursNot<T>(s: seq<T>, x: T)
    requires x !in s
    ensures Occurrences(s, x) == 0
  {
    if s != [] {
      OccursNot(s[1..], x);
    }
  }
}
