/**
 * The dual scheduler of Source/Evaluation.cpp: how far the powers can move before
 * some edge becomes tight or some blossom runs out of power, and the move itself.
 * The source's `double` is modelled as exact `real`.
 */
module Scheduler {
  import opened Wrappers
  import opened Seqs
  import opened Forest

  /**
   * A scan result: `Infinite` is the `std::numeric_limits<double>::max()` starting
   * value the scans return when nothing constrains the step.
   */
  datatype Bound = Infinite | Finite(value: real)

  /** The source's `x > y` on scan results, with the sentinel above every finite value. */
  predicate Greater(x: Bound, y: Bound) {
    match x
    case Infinite => y.Finite?
    case Finite(v) => y.Finite? && v > y.value
  }

  /** `std::min` (Source/Main.cpp:84), which keeps its first argument on ties. */
  function Min(x: Bound, y: Bound): (r: Bound)
    ensures r == x || r == y
    ensures !Greater(r, x) && !Greater(r, y)
  {
    if Greater(x, y) then y else x
  }

  /** How a flower of kind `k` takes part in a step: +1 when even in a tree, -1 when odd. */
  function KindSign(k: FlowerKind): int {
    match k
    case EvenInTree => 1
    case OddInTree => -1
    case _ => 0
  }

  /** Total power of the flowers `fs`. */
  function PowerSum(a: Arena, fs: seq<FlowerId>): real
    requires AllBelow(fs, |a.flowers|)
  {
    if fs == [] then 0.0 else PowerSum(a, fs[..|fs| - 1]) + a.flowers[fs[|fs| - 1]].power
  }

  /** Even tree flowers minus odd tree flowers among `fs`. */
  function Balance(a: Arena, fs: seq<FlowerId>): int
    requires AllBelow(fs, |a.flowers|)
  {
    if fs == [] then 0 else Balance(a, fs[..|fs| - 1]) + KindSign(a.flowers[fs[|fs| - 1]].kind)
  }

  /** What is left of the edge's weight after the powers of the flowers it touches. */
  function Padding(a: Arena, e: EdgeId): real
    requires WellFormed(a) && e < |a.edges|
  {
    a.edges[e].weight - PowerSum(a, a.edges[e].flowers)
  }

  /** An edge that limits the step: weight left over and more even than odd flowers on it. */
  predicate EdgeCandidate(a: Arena, e: EdgeId)
    requires WellFormed(a) && e < |a.edges|
  {
    Padding(a, e) > 0.0 && Balance(a, a.edges[e].flowers) > 0
  }

  /** The largest step the edge allows. */
  function EdgeRatio(a: Arena, e: EdgeId): real
    requires WellFormed(a) && e < |a.edges| && EdgeCandidate(a, e)
  {
    Padding(a, e) / (Balance(a, a.edges[e].flowers) as real)
  }

  /**
   * Among the first `n` edges of `es`, `es[k]` is a candidate of smallest ratio and
   * every earlier candidate has a larger one.
   */
  ghost predicate EarliestMinEdge(a: Arena, es: seq<EdgeId>, n: nat, k: nat)
    requires WellFormed(a) && AllBelow(es, |a.edges|) && n <= |es|
  {
    && k < n && EdgeCandidate(a, es[k])
    && (forall j :: 0 <= j < n && EdgeCandidate(a, es[j]) ==> EdgeRatio(a, es[k]) <= EdgeRatio(a, es[j]))
    && (forall j :: 0 <= j < k && EdgeCandidate(a, es[j]) ==> EdgeRatio(a, es[j]) > EdgeRatio(a, es[k]))
  }

  /**
   * `findMinEdgeEpsilon`: the smallest ratio among the candidate edges and the
   * earliest edge attaining it; `Infinite` and the untouched `minEdge` when no edge
   * is a candidate.
   */
  method FindMinEdgeEpsilon(a: Arena, es: seq<EdgeId>, minEdge: Option<EdgeId>)
    returns (eps: Bound, chosen: Option<EdgeId>)
    requires WellFormed(a) && AllBelow(es, |a.edges|)
    ensures eps.Infinite? <==> forall k :: 0 <= k < |es| ==> !EdgeCandidate(a, es[k])
    ensures eps.Infinite? ==> chosen == minEdge
    ensures eps.Finite? ==> exists k: nat :: EarliestMinEdge(a, es, |es|, k) && chosen == Some(es[k])
                                       && eps.value == EdgeRatio(a, es[k])
  {
    eps := Infinite;
    chosen := minEdge;
    ghost var best: nat := 0;
    var i := 0;
    while i < |es|
      invariant 0 <= i <= |es|
      invariant eps.Infinite? <==> forall k :: 0 <= k < i ==> !EdgeCandidate(a, es[k])
      invariant eps.Infinite? ==> chosen == minEdge
      invariant eps.Finite? ==> && best < i && EdgeCandidate(a, es[best]) && chosen == Some(es[best])
                                && eps.value == EdgeRatio(a, es[best])
                                && EarliestMinEdge(a, es, i, best)
    {
      var e := es[i];
      var padding, count := EdgeTotals(a, e);
      if padding > 0.0 && count > 0 {
        var ratio := padding / (count as real);
        if Greater(eps, Finite(ratio)) {
          if eps.Finite? {
            MinEdgeReplaced(a, es, i, best);
          }
          eps, chosen, best := Finite(ratio), Some(e), i;
        } else {
          MinEdgeKept(a, es, i, best);
        }
      } else if eps.Finite? {
        MinEdgeKept(a, es, i, best);
      }
      i := i + 1;
    }
  }

  lemma MinEdgeKept(a: Arena, es: seq<EdgeId>, i: nat, best: nat)
    requires WellFormed(a) && AllBelow(es, |a.edges|) && i < |es| && EarliestMinEdge(a, es, i, best)
    requires EdgeCandidate(a, es[i]) ==> EdgeRatio(a, es[best]) <= EdgeRatio(a, es[i])
    ensures EarliestMinEdge(a, es, i + 1, best)
  {
  }

  lemma MinEdgeReplaced(a: Arena, es: seq<EdgeId>, i: nat, best: nat)
    requires WellFormed(a) && AllBelow(es, |a.edges|) && i < |es| && EarliestMinEdge(a, es, i, best)
    requires EdgeCandidate(a, es[i]) && EdgeRatio(a, es[best]) > EdgeRatio(a, es[i])
    ensures EarliestMinEdge(a, es, i + 1, i)
  {
  }

  /** The inner loop of the edge scan: padding and balance of one edge. */
  method EdgeTotals(a: Arena, e: EdgeId) returns (padding: real, count: int)
    requires WellFormed(a) && e < |a.edges|
    ensures padding == Padding(a, e) && count == Balance(a, a.edges[e].flowers)
  {
    var fs := a.edges[e].flowers;
    padding, count := a.edges[e].weight, 0;
    var i := 0;
    while i < |fs|
      invariant 0 <= i <= |fs|
      invariant padding == a.edges[e].weight - PowerSum(a, fs[..i])
      invariant count == Balance(a, fs[..i])
    {
      var fl := a.flowers[fs[i]];
      assert fs[..i + 1][..i] == fs[..i];
      padding := padding - fl.power;
      match fl.kind {
        case EvenInTree => count := count + 1;
        case OddInTree => count := count - 1;
        case _ =>
      }
      i := i + 1;
    }
    assert fs[..i] == fs;
  }

  /** A free green flower: a blossom whose power bounds the step. */
  predicate GreenCandidate(a: Arena, f: FlowerId)
    requires f < |a.flowers|
  {
    a.flowers[f].IsFree() && a.flowers[f].IsGreen()
  }

  /**
   * Among the first `n` flowers of `fs`, `fs[k]` is a candidate of least power and
   * every earlier candidate has more.
   */
  ghost predicate EarliestMinGreen(a: Arena, fs: seq<FlowerId>, n: nat, k: nat)
    requires AllBelow(fs, |a.flowers|) && n <= |fs|
  {
    && k < n && GreenCandidate(a, fs[k])
    && (forall j :: 0 <= j < n && GreenCandidate(a, fs[j]) ==> a.flowers[fs[k]].power <= a.flowers[fs[j]].power)
    && (forall j :: 0 <= j < k && GreenCandidate(a, fs[j]) ==> a.flowers[fs[j]].power > a.flowers[fs[k]].power)
  }

  /**
   * `findMinGreenFlowerEpsilon`: the least power among the free green flowers and the
   * earliest flower holding it; `Infinite` and the untouched `minGreen` when there is none.
   */
  method FindMinGreenFlowerEpsilon(a: Arena, fs: seq<FlowerId>, minGreen: Option<FlowerId>)
    returns (eps: Bound, chosen: Option<FlowerId>)
    requires AllBelow(fs, |a.flowers|)
    ensures eps.Infinite? <==> forall k :: 0 <= k < |fs| ==> !GreenCandidate(a, fs[k])
    ensures eps.Infinite? ==> chosen == minGreen
    ensures eps.Finite? ==> exists k: nat :: EarliestMinGreen(a, fs, |fs|, k) && chosen == Some(fs[k])
                                       && eps.value == a.flowers[fs[k]].power
  {
    eps := Infinite;
    chosen := minGreen;
    ghost var best: nat := 0;
    var i := 0;
    while i < |fs|
      invariant 0 <= i <= |fs|
      invariant eps.Infinite? <==> forall k :: 0 <= k < i ==> !GreenCandidate(a, fs[k])
      invariant eps.Infinite? ==> chosen == minGreen
      invariant eps.Finite? ==> && best < i && chosen == Some(fs[best])
                                && eps.value == a.flowers[fs[best]].power
                                && EarliestMinGreen(a, fs, i, best)
    {
      var f := fs[i];
      var fl := a.flowers[f];
      if fl.IsFree() && fl.IsGreen() {
        if Greater(eps, Finite(fl.power)) {
          eps, chosen, best := Finite(fl.power), Some(f), i;
        }
      }
      i := i + 1;
    }
  }

  /** The change one step of `eps` makes to the power of a flower of kind `k`. */
  function Delta(k: FlowerKind, eps: real): real {
    match k
    case EvenInTree => eps
    case OddInTree => -eps
    case _ => 0.0
  }

  /** `m` occurrences of the step `d`. */
  function Times(d: real, m: nat): real {
    (m as real) * d
  }

  lemma TimesSucc(d: real, m: nat)
    ensures Times(d, m + 1) == Times(d, m) + d
  {
  }

  /** A positive number of steps keeps the sign of the step. */
  lemma {:induction false} TimesSign(d: real, m: nat)
    requires m >= 1
    ensures d > 0.0 ==> Times(d, m) > 0.0
    ensures d < 0.0 ==> Times(d, m) < 0.0
    ensures d == 0.0 ==> Times(d, m) == 0.0
  {
    if m > 1 {
      TimesSign(d, m - 1);
      TimesSucc(d, m - 1);
    }
  }

  /** One iteration of `applyEpsilon`: move the power of `f` by its kind's share. */
  function Bump(a: Arena, eps: real, f: FlowerId): (r: Arena)
    requires WellFormed(a) && f < |a.flowers|
    ensures WellFormed(r) && |r.flowers| == |a.flowers| && r.edges == a.edges
    ensures r.flowers[f] == a.flowers[f].(power := a.flowers[f].power + Delta(a.flowers[f].kind, eps))
    ensures forall y :: 0 <= y < |a.flowers| && y != f ==> r.flowers[y] == a.flowers[y]
  {
    var fl := a.flowers[f];
    SetFlower(a, f, fl.(power := fl.power + Delta(fl.kind, eps)))
  }

  /**
   * `applyEpsilon`: every listed even tree flower gains `eps` and every listed odd
   * tree flower loses it, once per time it is listed; nothing else changes.
   */
  function ApplyEpsilon(a: Arena, eps: real, fs: seq<FlowerId>): (r: Arena)
    requires WellFormed(a) && AllBelow(fs, |a.flowers|)
    ensures WellFormed(r) && |r.flowers| == |a.flowers| && r.edges == a.edges
    ensures forall x :: 0 <= x < |a.flowers| ==>
              r.flowers[x] == a.flowers[x].(power := a.flowers[x].power
                                               + Times(Delta(a.flowers[x].kind, eps), multiset(fs)[x]))
    decreases |fs|
  {
    if fs == [] then a
    else
      var b := Bump(a, eps, fs[0]);
      var r := ApplyEpsilon(b, eps, fs[1..]);
      ApplyEpsilonStep(a, b, r, eps, fs);
      r
  }

  /** One more listed occurrence adds one more share: `d * m + d == d * (m + 1)`. */
  lemma ApplyEpsilonStep(a: Arena, b: Arena, r: Arena, eps: real, fs: seq<FlowerId>)
    requires WellFormed(a) && AllBelow(fs, |a.flowers|) && fs != []
    requires b == Bump(a, eps, fs[0])
    requires |r.flowers| == |b.flowers|
    requires forall x :: 0 <= x < |b.flowers| ==>
               r.flowers[x] == b.flowers[x].(power := b.flowers[x].power
                                                + Times(Delta(b.flowers[x].kind, eps), multiset(fs[1..])[x]))
    ensures forall x :: 0 <= x < |a.flowers| ==>
              r.flowers[x] == a.flowers[x].(power := a.flowers[x].power
                                               + Times(Delta(a.flowers[x].kind, eps), multiset(fs)[x]))
  {
    assert fs == [fs[0]] + fs[1..];
    forall x | 0 <= x < |a.flowers|
      ensures r.flowers[x] == a.flowers[x].(power := a.flowers[x].power
                                               + Times(Delta(a.flowers[x].kind, eps), multiset(fs)[x]))
    {
      var d := Delta(a.flowers[x].kind, eps);
      var m := multiset(fs[1..])[x];
      if x == fs[0] {
        assert multiset(fs)[x] == m + 1;
        TimesSucc(d, m);
      } else {
        assert multiset(fs)[x] == m;
      }
    }
  }

  /** Even and odd tree flowers move in opposite directions; the others keep their power. */
  lemma ApplyEpsilonDirections(a: Arena, eps: real, fs: seq<FlowerId>, x: FlowerId)
    requires WellFormed(a) && AllBelow(fs, |a.flowers|) && x < |a.flowers| && x in fs && eps > 0.0
    ensures a.flowers[x].kind == EvenInTree ==> ApplyEpsilon(a, eps, fs).flowers[x].power > a.flowers[x].power
    ensures a.flowers[x].kind == OddInTree ==> ApplyEpsilon(a, eps, fs).flowers[x].power < a.flowers[x].power
    ensures a.flowers[x].kind in {InDumbbell, Internal} ==>
              ApplyEpsilon(a, eps, fs).flowers[x] == a.flowers[x]
  {
    var m := multiset(fs)[x];
    TimesSign(Delta(a.flowers[x].kind, eps), m);
  }
}
