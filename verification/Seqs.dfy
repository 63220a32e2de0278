/** Sequence helpers for the idioms the source spells with `std::remove`, index scans and iterators. */
module Seqs {

  /** `xs` occurs in `ys` in order, possibly with gaps. */
  ghost predicate IsSubsequence<T>(xs: seq<T>, ys: seq<T>)
    decreases |ys|
  {
    if xs == [] then true
    else if ys == [] then false
    else if xs[0] == ys[0] then IsSubsequence(xs[1..], ys[1..])
    else IsSubsequence(xs, ys[1..])
  }

  /** The erase/remove idiom: every occurrence of `x` is dropped, the rest keeps its order. */
  function RemoveAll<T(==,!new)>(xs: seq<T>, x: T): (r: seq<T>)
    ensures x !in r
    ensures forall y :: y != x ==> multiset(r)[y] == multiset(xs)[y]
    ensures forall y :: y in r ==> y in xs
    ensures IsSubsequence(r, xs)
    ensures x !in xs ==> r == xs
  {
    if xs == [] then []
    else
      assert xs == [xs[0]] + xs[1..];
      if xs[0] == x then RemoveAll(xs[1..], x)
      else [xs[0]] + RemoveAll(xs[1..], x)
  }

  /** The index loops that overwrite their result on every match: the last index holding `x`, or 0. */
  function LastIndex<T(==)>(xs: seq<T>, x: T): (r: nat)
    ensures |xs| > 0 ==> r < |xs|
    ensures x in xs ==> xs[r] == x && forall j :: r < j < |xs| ==> xs[j] != x
    ensures x !in xs ==> r == 0
  {
    if xs == [] then 0
    else if xs[|xs| - 1] == x then |xs| - 1
    else LastIndex(xs[..|xs| - 1], x)
  }

  /** The elements in front of the first occurrence of `x`. */
  function PrefixBefore<T(==)>(xs: seq<T>, x: T): (r: seq<T>)
    requires x in xs
    ensures |r| < |xs| && xs[|r|] == x && r == xs[..|r|]
    ensures x !in r
  {
    if xs[0] == x then [] else [xs[0]] + PrefixBefore(xs[1..], x)
  }

  /** In a list without repeats, the prefix before an element is the prefix up to its position. */
  lemma PrefixBeforeAt<T>(xs: seq<T>, i: nat)
    requires Distinct(xs) && i < |xs|
    ensures PrefixBefore(xs, xs[i]) == xs[..i]
  {
  }

  /** No element occurs twice. */
  predicate Distinct<T(==)>(xs: seq<T>) {
    forall i, j :: 0 <= i < j < |xs| ==> xs[i] != xs[j]
  }

  /** Every element is below `n`: the ids a list holds are all in range. */
  predicate AllBelow(xs: seq<nat>, n: int) {
    forall i :: 0 <= i < |xs| ==> xs[i] < n
  }

  /** A rearrangement of ids in range holds ids in range. */
  lemma AllBelowPermutation(xs: seq<nat>, ys: seq<nat>, n: int)
    requires multiset(xs) == multiset(ys) && AllBelow(ys, n)
    ensures AllBelow(xs, n)
  {
    forall i | 0 <= i < |xs|
      ensures xs[i] < n
    {
      assert xs[i] in multiset(ys);
    }
  }

  /** A list whose elements all occur in a list of ids in range holds ids in range. */
  lemma AllBelowSubset(xs: seq<nat>, ys: seq<nat>, n: int)
    requires (forall x :: x in xs ==> x in ys) && AllBelow(ys, n)
    ensures AllBelow(xs, n)
  {
    forall i | 0 <= i < |xs|
      ensures xs[i] < n
    {
      assert xs[i] in ys;
    }
  }

  /** Concatenating lists of ids in range gives a list of ids in range. */
  lemma AllBelowConcat(xs: seq<nat>, ys: seq<nat>, n: int)
    requires AllBelow(xs, n) && AllBelow(ys, n)
    ensures AllBelow(xs + ys, n)
  {
    forall i | 0 <= i < |xs + ys|
      ensures (xs + ys)[i] < n
    {
      if i >= |xs| {
        assert (xs + ys)[i] == ys[i - |xs|];
      }
    }
  }
}
