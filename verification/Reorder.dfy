/**
 * The cyclic reindexing routine `reorderFlowers` (Source/Actions.cpp:16-48), which
 * every blossom action uses to bring a blossom's subflowers into canonical order
 * around two anchor subflowers.
 */
module Reorder {

  /** The position `i` steps after `s` on a cycle of length `n`. */
  function Forward(n: nat, s: nat, i: nat): (r: nat)
    requires s < n && i < n
    ensures r < n
  {
    if s + i < n then s + i else s + i - n
  }

  /** The position `i` steps before `s` on a cycle of length `n`. */
  function Backward(n: nat, s: nat, i: nat): (r: nat)
    requires s < n && i < n
    ensures r < n
  {
    if i <= s then s - i else s - i + n
  }

  /** `std::reverse`. */
  function Reverse<T>(xs: seq<T>): (r: seq<T>)
    ensures |r| == |xs|
    ensures forall i :: 0 <= i < |xs| ==> r[i] == xs[|xs| - 1 - i]
  {
    seq(|xs|, i requires 0 <= i < |xs| => xs[|xs| - 1 - i])
  }

  /** Reversal keeps every element with its multiplicity. */
  lemma {:induction false} ReversePermutes<T>(xs: seq<T>)
    ensures multiset(Reverse(xs)) == multiset(xs)
  {
    if xs != [] {
      var tail := xs[1..];
      assert Reverse(xs) == Reverse(tail) + [xs[0]];
      ReversePermutes(tail);
      assert xs == [xs[0]] + tail;
    }
  }

  /**
   * The rotation step of the routine (its copy loop reads old position `(s + i) % n`
   * into position `i`, and is skipped when `s` is 0).
   */
  function Rotated<T>(xs: seq<T>, s: nat): (r: seq<T>)
    requires s < |xs|
    ensures |r| == |xs|
    ensures forall i :: 0 <= i < |xs| ==> r[i] == xs[Forward(|xs|, s, i)]
    ensures multiset(r) == multiset(xs)
  {
    if s > 0 then
      assert xs == xs[..s] + xs[s..];
      xs[s..] + xs[..s]
    else xs
  }

  /** The elements read walking forward around the cycle from position `s`. */
  function ForwardWalk<T>(xs: seq<T>, s: nat): (r: seq<T>)
    requires s < |xs|
    ensures |r| == |xs| && forall i :: 0 <= i < |xs| ==> r[i] == xs[Forward(|xs|, s, i)]
  {
    seq(|xs|, i requires 0 <= i < |xs| => xs[Forward(|xs|, s, i)])
  }

  /** The elements read walking backward around the cycle from position `s`. */
  function BackwardWalk<T>(xs: seq<T>, s: nat): (r: seq<T>)
    requires s < |xs|
    ensures |r| == |xs| && forall i :: 0 <= i < |xs| ==> r[i] == xs[Backward(|xs|, s, i)]
  {
    seq(|xs|, i requires 0 <= i < |xs| => xs[Backward(|xs|, s, i)])
  }

  /** Length of the cyclic run from `s` to `e` inclusive, computed as the routine computes it. */
  function SegmentSize(n: int, s: int, e: int): int {
    var size := e - s + 1;
    if size < 1 then size + n else size
  }

  /** The new end index: the number of forward steps from `s` to `e`. */
  function NewEnd(n: nat, s: nat, e: nat): (r: nat)
    requires s < n && e < n
    ensures r < n && Forward(n, s, r) == e
  {
    if s > e then e + n - s else e - s
  }

  /**
   * `reorderFlowers`: rotate (after reversing, when the run from `start` to `end` has even
   * length) so that the start element comes first; returns the new order and the new end index.
   * When the run has odd length the order walks forward from `start`, otherwise backward;
   * either way the old start element lands at 0 and the old end element at the new end index,
   * and for an odd number of elements the kept run 0..end has odd length.
   */
  function ReorderFlowers<T>(xs: seq<T>, start: nat, end: nat): (r: (seq<T>, nat))
    requires start < |xs| && end < |xs|
    ensures |r.0| == |xs| && r.1 < |xs|
    ensures r.0[0] == xs[start] && r.0[r.1] == xs[end]
    ensures multiset(r.0) == multiset(xs)
    ensures SegmentSize(|xs|, start, end) % 2 == 1 ==>
              r.0 == ForwardWalk(xs, start) && Forward(|xs|, start, r.1) == end
    ensures SegmentSize(|xs|, start, end) % 2 == 0 ==>
              r.0 == BackwardWalk(xs, start) && Backward(|xs|, start, r.1) == end
    ensures |xs| % 2 == 1 ==> r.1 % 2 == 0
  {
    var n := |xs|;
    if SegmentSize(n, start, end) % 2 == 0 then
      var s1 := n - (start + 1);
      var zs := Rotated(Reverse(xs), s1);
      var e2 := NewEnd(n, s1, n - (end + 1));
      ReversePermutes(xs);
      MirroredOrder(xs, start, zs);
      MirroredEnd(n, start, end);
      (zs, e2)
    else
      ForwardEnd(n, start, end);
      var zs := Rotated(xs, start);
      assert zs == ForwardWalk(xs, start);
      (zs, NewEnd(n, start, end))
  }

  /** Rotating the reversal to the mirrored start walks the original order backward. */
  lemma MirroredOrder<T>(xs: seq<T>, start: nat, zs: seq<T>)
    requires start < |xs| && zs == Rotated(Reverse(xs), |xs| - (start + 1))
    ensures zs == BackwardWalk(xs, start)
  {
    forall i | 0 <= i < |xs|
      ensures zs[i] == xs[Backward(|xs|, start, i)]
    {
      MirroredAt(xs, start, zs, i);
    }
    assert zs == BackwardWalk(xs, start);
  }

  lemma MirroredAt<T>(xs: seq<T>, start: nat, zs: seq<T>, i: nat)
    requires start < |xs| && i < |xs| && zs == Rotated(Reverse(xs), |xs| - (start + 1))
    ensures zs[i] == xs[Backward(|xs|, start, i)]
  {
    var n := |xs|;
    var k := Forward(n, n - (start + 1), i);
    assert n - 1 - k == Backward(n, start, i);
    assert zs[i] == Reverse(xs)[k];
  }

  /** On the mirrored order the new end is reached walking backward, and is even when `n` is odd. */
  lemma MirroredEnd(n: nat, start: nat, end: nat)
    requires start < n && end < n && SegmentSize(n, start, end) % 2 == 0
    ensures Backward(n, start, NewEnd(n, n - (start + 1), n - (end + 1))) == end
    ensures n % 2 == 1 ==> NewEnd(n, n - (start + 1), n - (end + 1)) % 2 == 0
  {
  }

  /** On the forward order the new end is even when `n` is odd. */
  lemma ForwardEnd(n: nat, start: nat, end: nat)
    requires start < n && end < n && SegmentSize(n, start, end) % 2 == 1
    ensures n % 2 == 1 ==> NewEnd(n, start, end) % 2 == 0
  {
  }

  /** Fixture a1 (Source/Actions.cpp:85-92), on the items [1, 2, 3]. */
  lemma Fixture1(xs: seq<int>)
    requires xs == [1, 2, 3]
    ensures ReorderFlowers(xs, 0, 0) == ([1, 2, 3], 0)
  {
    assert SegmentSize(3, 0, 0) == 1;
    var w := ForwardWalk(xs, 0);
    assert Forward(3, 0, 0) == 0 && w[0] == xs[0];
    assert Forward(3, 0, 1) == 1 && w[1] == xs[1];
    assert Forward(3, 0, 2) == 2 && w[2] == xs[2];
    assert w == [1, 2, 3];
    assert Forward(3, 0, 0) == 0;
  }

  /** Fixture a2 (Source/Actions.cpp:93-100), on the items [1, 2, 3]. */
  lemma Fixture2(xs: seq<int>)
    requires xs == [1, 2, 3]
    ensures ReorderFlowers(xs, 1, 1) == ([2, 3, 1], 0)
  {
    assert SegmentSize(3, 1, 1) == 1;
    var w := ForwardWalk(xs, 1);
    assert Forward(3, 1, 0) == 1 && w[0] == xs[1];
    assert Forward(3, 1, 1) == 2 && w[1] == xs[2];
    assert Forward(3, 1, 2) == 0 && w[2] == xs[0];
    assert w == [2, 3, 1];
    assert Forward(3, 1, 0) == 1;
  }

  /** Fixture a3 (Source/Actions.cpp:101-108), on the items [1, 2, 3]. */
  lemma Fixture3(xs: seq<int>)
    requires xs == [1, 2, 3]
    ensures ReorderFlowers(xs, 2, 2) == ([3, 1, 2], 0)
  {
    assert SegmentSize(3, 2, 2) == 1;
    var w := ForwardWalk(xs, 2);
    assert Forward(3, 2, 0) == 2 && w[0] == xs[2];
    assert Forward(3, 2, 1) == 0 && w[1] == xs[0];
    assert Forward(3, 2, 2) == 1 && w[2] == xs[1];
    assert w == [3, 1, 2];
    assert Forward(3, 2, 0) == 2;
  }

  /** Fixture a4 (Source/Actions.cpp:109-116), on the items [1, 2, 3]. */
  lemma Fixture4(xs: seq<int>)
    requires xs == [1, 2, 3]
    ensures ReorderFlowers(xs, 0, 1) == ([1, 3, 2], 2)
  {
    assert SegmentSize(3, 0, 1) == 2;
    var w := BackwardWalk(xs, 0);
    assert Backward(3, 0, 0) == 0 && w[0] == xs[0];
    assert Backward(3, 0, 1) == 2 && w[1] == xs[2];
    assert Backward(3, 0, 2) == 1 && w[2] == xs[1];
    assert w == [1, 3, 2];
    assert Backward(3, 0, 2) == 1;
  }

  /** Fixture a5 (Source/Actions.cpp:117-124), on the items [1, 2, 3]. */
  lemma Fixture5(xs: seq<int>)
    requires xs == [1, 2, 3]
    ensures ReorderFlowers(xs, 1, 0) == ([2, 3, 1], 2)
  {
    assert SegmentSize(3, 1, 0) == 3;
    var w := ForwardWalk(xs, 1);
    assert Forward(3, 1, 0) == 1 && w[0] == xs[1];
    assert Forward(3, 1, 1) == 2 && w[1] == xs[2];
    assert Forward(3, 1, 2) == 0 && w[2] == xs[0];
    assert w == [2, 3, 1];
    assert Forward(3, 1, 2) == 0;
  }

  /** Fixture a6 (Source/Actions.cpp:125-132), on the items [1, 2, 3]. */
  lemma Fixture6(xs: seq<int>)
    requires xs == [1, 2, 3]
    ensures ReorderFlowers(xs, 0, 2) == ([1, 2, 3], 2)
  {
    assert SegmentSize(3, 0, 2) == 3;
    var w := ForwardWalk(xs, 0);
    assert Forward(3, 0, 0) == 0 && w[0] == xs[0];
    assert Forward(3, 0, 1) == 1 && w[1] == xs[1];
    assert Forward(3, 0, 2) == 2 && w[2] == xs[2];
    assert w == [1, 2, 3];
    assert Forward(3, 0, 2) == 2;
  }

  /** Fixture a7 (Source/Actions.cpp:133-140), on the items [1, 2, 3]. */
  lemma Fixture7(xs: seq<int>)
    requires xs == [1, 2, 3]
    ensures ReorderFlowers(xs, 2, 0) == ([3, 2, 1], 2)
  {
    assert SegmentSize(3, 2, 0) == 2;
    var w := BackwardWalk(xs, 2);
    assert Backward(3, 2, 0) == 2 && w[0] == xs[2];
    assert Backward(3, 2, 1) == 1 && w[1] == xs[1];
    assert Backward(3, 2, 2) == 0 && w[2] == xs[0];
    assert w == [3, 2, 1];
    assert Backward(3, 2, 2) == 0;
  }

  /** Fixture a8 (Source/Actions.cpp:141-148), on the items [1, 2, 3, 4, 5]. */
  lemma Fixture8(xs: seq<int>)
    requires xs == [1, 2, 3, 4, 5]
    ensures ReorderFlowers(xs, 1, 4) == ([2, 1, 5, 4, 3], 2)
  {
    assert SegmentSize(5, 1, 4) == 4;
    var w := BackwardWalk(xs, 1);
    assert Backward(5, 1, 0) == 1 && w[0] == xs[1];
    assert Backward(5, 1, 1) == 0 && w[1] == xs[0];
    assert Backward(5, 1, 2) == 4 && w[2] == xs[4];
    assert Backward(5, 1, 3) == 3 && w[3] == xs[3];
    assert Backward(5, 1, 4) == 2 && w[4] == xs[2];
    assert w == [2, 1, 5, 4, 3];
    assert Backward(5, 1, 2) == 4;
  }

  /** Fixture a9 (Source/Actions.cpp:149-156), on the items [1, 2, 3, 4, 5]. */
  lemma Fixture9(xs: seq<int>)
    requires xs == [1, 2, 3, 4, 5]
    ensures ReorderFlowers(xs, 4, 1) == ([5, 1, 2, 3, 4], 2)
  {
    assert SegmentSize(5, 4, 1) == 3;
    var w := ForwardWalk(xs, 4);
    assert Forward(5, 4, 0) == 4 && w[0] == xs[4];
    assert Forward(5, 4, 1) == 0 && w[1] == xs[0];
    assert Forward(5, 4, 2) == 1 && w[2] == xs[1];
    assert Forward(5, 4, 3) == 2 && w[3] == xs[2];
    assert Forward(5, 4, 4) == 3 && w[4] == xs[3];
    assert w == [5, 1, 2, 3, 4];
    assert Forward(5, 4, 2) == 1;
  }

  /** Fixture a10 (Source/Actions.cpp:157-164), on the items [1, 2, 3, 4, 5]. */
  lemma Fixture10(xs: seq<int>)
    requires xs == [1, 2, 3, 4, 5]
    ensures ReorderFlowers(xs, 4, 0) == ([5, 4, 3, 2, 1], 4)
  {
    assert SegmentSize(5, 4, 0) == 2;
    var w := BackwardWalk(xs, 4);
    assert Backward(5, 4, 0) == 4 && w[0] == xs[4];
    assert Backward(5, 4, 1) == 3 && w[1] == xs[3];
    assert Backward(5, 4, 2) == 2 && w[2] == xs[2];
    assert Backward(5, 4, 3) == 1 && w[3] == xs[1];
    assert Backward(5, 4, 4) == 0 && w[4] == xs[0];
    assert w == [5, 4, 3, 2, 1];
    assert Backward(5, 4, 4) == 0;
  }

  /** Fixture a11 (Source/Actions.cpp:165-172), on the items [1, 2, 3, 4, 5]. */
  lemma Fixture11(xs: seq<int>)
    requires xs == [1, 2, 3, 4, 5]
    ensures ReorderFlowers(xs, 2, 2) == ([3, 4, 5, 1, 2], 0)
  {
    assert SegmentSize(5, 2, 2) == 1;
    var w := ForwardWalk(xs, 2);
    assert Forward(5, 2, 0) == 2 && w[0] == xs[2];
    assert Forward(5, 2, 1) == 3 && w[1] == xs[3];
    assert Forward(5, 2, 2) == 4 && w[2] == xs[4];
    assert Forward(5, 2, 3) == 0 && w[3] == xs[0];
    assert Forward(5, 2, 4) == 1 && w[4] == xs[1];
    assert w == [3, 4, 5, 1, 2];
    assert Forward(5, 2, 0) == 2;
  }

  /** Fixture a12 (Source/Actions.cpp:173-180), on the items [1, 2, 3, 4, 5]. */
  lemma Fixture12(xs: seq<int>)
    requires xs == [1, 2, 3, 4, 5]
    ensures ReorderFlowers(xs, 0, 4) == ([1, 2, 3, 4, 5], 4)
  {
    assert SegmentSize(5, 0, 4) == 5;
    var w := ForwardWalk(xs, 0);
    assert Forward(5, 0, 0) == 0 && w[0] == xs[0];
    assert Forward(5, 0, 1) == 1 && w[1] == xs[1];
    assert Forward(5, 0, 2) == 2 && w[2] == xs[2];
    assert Forward(5, 0, 3) == 3 && w[3] == xs[3];
    assert Forward(5, 0, 4) == 4 && w[4] == xs[4];
    assert w == [1, 2, 3, 4, 5];
    assert Forward(5, 0, 4) == 4;
  }

  /** Fixture a13 (Source/Actions.cpp:181-188), on the items [1, 2, 3, 4, 5]. */
  lemma Fixture13(xs: seq<int>)
    requires xs == [1, 2, 3, 4, 5]
    ensures ReorderFlowers(xs, 4, 0) == ([5, 4, 3, 2, 1], 4)
  {
    assert SegmentSize(5, 4, 0) == 2;
    var w := BackwardWalk(xs, 4);
    assert Backward(5, 4, 0) == 4 && w[0] == xs[4];
    assert Backward(5, 4, 1) == 3 && w[1] == xs[3];
    assert Backward(5, 4, 2) == 2 && w[2] == xs[2];
    assert Backward(5, 4, 3) == 1 && w[3] == xs[1];
    assert Backward(5, 4, 4) == 0 && w[4] == xs[0];
    assert w == [5, 4, 3, 2, 1];
    assert Backward(5, 4, 4) == 0;
  }

  /** Fixture a14 (Source/Actions.cpp:189-196), on the items [1, 2, 3, 4, 5]. */
  lemma Fixture14(xs: seq<int>)
    requires xs == [1, 2, 3, 4, 5]
    ensures ReorderFlowers(xs, 4, 2) == ([5, 4, 3, 2, 1], 2)
  {
    assert SegmentSize(5, 4, 2) == 4;
    var w := BackwardWalk(xs, 4);
    assert Backward(5, 4, 0) == 4 && w[0] == xs[4];
    assert Backward(5, 4, 1) == 3 && w[1] == xs[3];
    assert Backward(5, 4, 2) == 2 && w[2] == xs[2];
    assert Backward(5, 4, 3) == 1 && w[3] == xs[1];
    assert Backward(5, 4, 4) == 0 && w[4] == xs[0];
    assert w == [5, 4, 3, 2, 1];
    assert Backward(5, 4, 2) == 2;
  }

  /** Fixture a15 (Source/Actions.cpp:197-204), on the items [1, 2, 3, 4, 5]. */
  lemma Fixture15(xs: seq<int>)
    requires xs == [1, 2, 3, 4, 5]
    ensures ReorderFlowers(xs, 1, 3) == ([2, 3, 4, 5, 1], 2)
  {
    assert SegmentSize(5, 1, 3) == 3;
    var w := ForwardWalk(xs, 1);
    assert Forward(5, 1, 0) == 1 && w[0] == xs[1];
    assert Forward(5, 1, 1) == 2 && w[1] == xs[2];
    assert Forward(5, 1, 2) == 3 && w[2] == xs[3];
    assert Forward(5, 1, 3) == 4 && w[3] == xs[4];
    assert Forward(5, 1, 4) == 0 && w[4] == xs[0];
    assert w == [2, 3, 4, 5, 1];
    assert Forward(5, 1, 2) == 3;
  }

  /** Fixture a16 (Source/Actions.cpp:205-212), on the items [1, 2, 3, 4, 5]. */
  lemma Fixture16(xs: seq<int>)
    requires xs == [1, 2, 3, 4, 5]
    ensures ReorderFlowers(xs, 1, 0) == ([2, 3, 4, 5, 1], 4)
  {
    assert SegmentSize(5, 1, 0) == 5;
    var w := ForwardWalk(xs, 1);
    assert Forward(5, 1, 0) == 1 && w[0] == xs[1];
    assert Forward(5, 1, 1) == 2 && w[1] == xs[2];
    assert Forward(5, 1, 2) == 3 && w[2] == xs[3];
    assert Forward(5, 1, 3) == 4 && w[3] == xs[4];
    assert Forward(5, 1, 4) == 0 && w[4] == xs[0];
    assert w == [2, 3, 4, 5, 1];
    assert Forward(5, 1, 4) == 0;
  }
}
