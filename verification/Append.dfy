/**
 * `executeAppendDumbbell` (Source/Actions.cpp:333-360): a tight edge from a tree
 * flower to a dumbbell hangs the dumbbell under the tree, its near end odd and its
 * far end even.
 */
module Append {
  import opened Wrappers
  import opened Seqs
  import opened Forest

  /**
   * The lower dumbbell flower (Source/Actions.cpp:349-354): the entry of the free
   * flowers of `upper`'s in-pairing edge that is not `upper` itself, or the second
   * entry when both are `upper`.  `None` when `upper` has no in-pairing edge or that
   * edge does not have exactly two free flowers (the source dereferences null, or
   * aborts in the debug build).
   */
  function PairingPartner(a: Arena, upper: FlowerId): (r: Option<FlowerId>)
    requires WellFormed(a) && upper < |a.flowers|
    ensures r.Some? <==> InPairingEdge(a, upper).Some? && |FreeFlowers(a, InPairingEdge(a, upper).value)| == 2
    ensures r.Some? ==> var ff := FreeFlowers(a, InPairingEdge(a, upper).value);
                        && r.value < |a.flowers| && r.value in ff
                        && (r.value == upper ==> ff == [upper, upper])
  {
    match InPairingEdge(a, upper)
    case None => None
    case Some(pe) =>
      var ff := FreeFlowers(a, pe);
      if |ff| != 2 then None
      else if ff[0] == upper then Some(ff[1]) else Some(ff[0])
  }

  /** The partner lookup reads edges, the flower's edge list and free/not-free status only. */
  lemma PartnerFrame(a: Arena, b: Arena, upper: FlowerId)
    requires WellFormed(a) && WellFormed(b) && upper < |a.flowers| && |a.flowers| == |b.flowers|
    requires a.edges == b.edges && a.flowers[upper].edges == b.flowers[upper].edges
    requires forall x :: 0 <= x < |a.flowers| ==> (a.flowers[x].IsFree() <==> b.flowers[x].IsFree())
    ensures PairingPartner(a, upper) == PairingPartner(b, upper)
  {
    InPairingFrame(a, b, upper);
    match InPairingEdge(a, upper)
    case None =>
    case Some(pe) =>
      FreeOfFrame(a, b, a.edges[pe].flowers);
      assert FreeFlowers(a, pe) == FreeFlowers(b, pe);
  }

  /** The endpoint that stays in the tree: the first free flower unless it is in a dumbbell. */
  function TreeEnd(a: Arena, ff: seq<FlowerId>): FlowerId
    requires |ff| == 2 && AllBelow(ff, |a.flowers|)
  {
    if a.flowers[ff[0]].IsInDumbbell() then ff[1] else ff[0]
  }

  /** The endpoint in the dumbbell, which becomes the odd flower. */
  function UpperEnd(a: Arena, ff: seq<FlowerId>): FlowerId
    requires |ff| == 2 && AllBelow(ff, |a.flowers|)
  {
    if a.flowers[ff[0]].IsInDumbbell() then ff[0] else ff[1]
  }

  /** The lower dumbbell flower as the source finds it, after the edge became blocking. */
  function Partner(a: Arena, e: EdgeId, ff: seq<FlowerId>): Option<FlowerId>
    requires WellFormed(a) && e < |a.edges| && |ff| == 2 && AllBelow(ff, |a.flowers|)
  {
    PairingPartner(SetEdgeKind(a, e, FullBlocking), UpperEnd(a, ff))
  }

  /**
   * What the append does to the arena when the tree flower `t`, the upper flower `u`
   * and the lower flower `l` are three different flowers: the edge becomes blocking,
   * `u` becomes an odd child of `t` and `l` an even child of `u`, and nothing else
   * changes.
   */
  ghost predicate AppendEffect(a: Arena, e: EdgeId, t: FlowerId, u: FlowerId, l: FlowerId, r: Arena)
    requires WellFormed(a) && e < |a.edges| && t < |a.flowers| && u < |a.flowers| && l < |a.flowers|
  {
    && |r.flowers| == |a.flowers| && |r.edges| == |a.edges|
    && r.edges[e] == a.edges[e].(kind := FullBlocking)
    && (forall j :: 0 <= j < |a.edges| && j != e ==> r.edges[j] == a.edges[j])
    && r.flowers[t] == a.flowers[t].(children := a.flowers[t].children + [u])
    && r.flowers[u] == a.flowers[u].(kind := OddInTree, parent := Some(t), children := a.flowers[u].children + [l])
    && r.flowers[l] == a.flowers[l].(kind := EvenInTree, parent := Some(u))
    && (forall x :: 0 <= x < |a.flowers| && x != t && x != u && x != l ==> r.flowers[x] == a.flowers[x])
  }

  /** Source/Actions.cpp:335-347: the edge becomes blocking and `u` an odd child of `t`. */
  function HangUpper(a: Arena, e: EdgeId, t: FlowerId, u: FlowerId): (r: Arena)
    requires WellFormed(a) && e < |a.edges| && t < |a.flowers| && u < |a.flowers|
    ensures WellFormed(r) && |r.flowers| == |a.flowers| && |r.edges| == |a.edges|
    ensures r.edges == SetEdgeKind(a, e, FullBlocking).edges
    ensures t != u ==> && r.flowers[t] == a.flowers[t].(children := a.flowers[t].children + [u])
                       && r.flowers[u] == a.flowers[u].(kind := OddInTree, parent := Some(t))
    ensures forall x :: 0 <= x < |a.flowers| && x != t && x != u ==> r.flowers[x] == a.flowers[x]
  {
    var a1 := SetEdgeKind(a, e, FullBlocking);
    var a2 := SetChildren(a1, t, a1.flowers[t].children + [u]);
    var a3 := SetParent(a2, u, Some(t));
    SetKind(a3, u, OddInTree)
  }

  /** Source/Actions.cpp:356-359: `l` becomes an even child of `u`. */
  function HangLower(a: Arena, u: FlowerId, l: FlowerId): (r: Arena)
    requires WellFormed(a) && u < |a.flowers| && l < |a.flowers|
    ensures WellFormed(r) && |r.flowers| == |a.flowers| && r.edges == a.edges
    ensures u != l ==> && r.flowers[u] == a.flowers[u].(children := a.flowers[u].children + [l])
                       && r.flowers[l] == a.flowers[l].(kind := EvenInTree, parent := Some(u))
    ensures forall x :: 0 <= x < |a.flowers| && x != u && x != l ==> r.flowers[x] == a.flowers[x]
  {
    var a5 := SetChildren(a, u, a.flowers[u].children + [l]);
    var a6 := SetParent(a5, l, Some(u));
    SetKind(a6, l, EvenInTree)
  }

  /**
   * `executeAppendDumbbell` on the edge `e` whose free flowers are `ff`.  It fails
   * exactly when the dumbbell flower has no partner; otherwise, with three distinct
   * flowers involved, it has the effect `AppendEffect` describes.
   */
  function AppendDumbbell(a: Arena, e: EdgeId, ff: seq<FlowerId>): (r: Option<Arena>)
    requires WellFormed(a) && e < |a.edges| && |ff| == 2 && AllBelow(ff, |a.flowers|)
    requires forall f :: f in ff ==> a.flowers[f].IsFree()
    ensures r.Some? <==> Partner(a, e, ff).Some?
    ensures r.Some? ==> WellFormed(r.value) && |r.value.flowers| == |a.flowers| && |r.value.edges| == |a.edges|
    ensures r.Some? ==> var t, u, l := TreeEnd(a, ff), UpperEnd(a, ff), Partner(a, e, ff).value;
                        t != u && u != l && t != l ==> AppendEffect(a, e, t, u, l, r.value)
  {
    var t, u := TreeEnd(a, ff), UpperEnd(a, ff);
    var a4 := HangUpper(a, e, t, u);
    assert ff[0] in ff && ff[1] in ff;
    PartnerFrame(SetEdgeKind(a, e, FullBlocking), a4, u);
    match PairingPartner(a4, u)
    case None => None
    case Some(l) =>
      var r := HangLower(a4, u, l);
      if t != u && u != l && t != l then
        HangEffect(a, e, t, u, l, a4, r);
        Some(r)
      else Some(r)
  }

  /** The two hanging steps together have the effect `AppendEffect` describes. */
  lemma HangEffect(a: Arena, e: EdgeId, t: FlowerId, u: FlowerId, l: FlowerId, a4: Arena, r: Arena)
    requires WellFormed(a) && e < |a.edges| && t < |a.flowers| && u < |a.flowers| && l < |a.flowers|
    requires t != u && u != l && t != l
    requires a4 == HangUpper(a, e, t, u) && r == HangLower(a4, u, l)
    ensures AppendEffect(a, e, t, u, l, r)
  {
    var b := SetEdgeKind(a, e, FullBlocking);
    assert r.edges == b.edges;
    assert r.flowers[u] == a4.flowers[u].(children := a4.flowers[u].children + [l]);
    assert a4.flowers[u] == a.flowers[u].(kind := OddInTree, parent := Some(t));
  }

  /** Only parent links of `u` and `l` change, so other flowers keep their root. */
  lemma RootPathKept(a: Arena, r: Arena, ps: seq<FlowerId>, u: FlowerId, l: FlowerId)
    requires IsRootPath(a, ps) && |r.flowers| == |a.flowers| && u !in ps && l !in ps
    requires forall x :: 0 <= x < |a.flowers| && x != u && x != l ==> r.flowers[x].parent == a.flowers[x].parent
    ensures IsRootPath(r, ps)
  {
    forall i | 0 <= i < |ps|
      ensures r.flowers[ps[i]].parent == a.flowers[ps[i]].parent
    {
      assert ps[i] in ps;
    }
  }

  /**
   * After the append the whole dumbbell belongs to the tree of `t`: the lower flower's
   * root is the root `t` had, provided `t`'s path to its root avoids the dumbbell.
   */
  lemma AppendJoinsTree(a: Arena, e: EdgeId, ff: seq<FlowerId>)
    requires WellFormed(a) && e < |a.edges| && |ff| == 2 && AllBelow(ff, |a.flowers|)
    requires forall f :: f in ff ==> a.flowers[f].IsFree()
    requires AppendDumbbell(a, e, ff).Some?
    requires var t, u, l := TreeEnd(a, ff), UpperEnd(a, ff), Partner(a, e, ff).value;
             && t != u && u != l && t != l
             && RootPath(a, t, |a.flowers|).Some?
             && u !in RootPath(a, t, |a.flowers|).value && l !in RootPath(a, t, |a.flowers|).value
    ensures var r, t, l := AppendDumbbell(a, e, ff).value, TreeEnd(a, ff), Partner(a, e, ff).value;
            Root(r, l) == Root(a, t)
  {
    var r := AppendDumbbell(a, e, ff).value;
    var t, u, l := TreeEnd(a, ff), UpperEnd(a, ff), Partner(a, e, ff).value;
    EffectJoinsTree(a, e, t, u, l, r);
  }

  lemma EffectJoinsTree(a: Arena, e: EdgeId, t: FlowerId, u: FlowerId, l: FlowerId, r: Arena)
    requires WellFormed(a) && WellFormed(r) && e < |a.edges| && t < |a.flowers| && u < |a.flowers| && l < |a.flowers|
    requires t != u && u != l && t != l && AppendEffect(a, e, t, u, l, r)
    requires RootPath(a, t, |a.flowers|).Some?
    requires u !in RootPath(a, t, |a.flowers|).value && l !in RootPath(a, t, |a.flowers|).value
    ensures Root(r, l) == Root(a, t)
  {
    var ps := RootPath(a, t, |a.flowers|).value;
    RootPathKept(a, r, ps, u, l);
    RootPathExtend(r, u, ps);
    RootPathExtend(r, l, [u] + ps);
    var qs := [l] + ([u] + ps);
    assert qs[0] == l && qs[|qs| - 1] == ps[|ps| - 1];
  }
}
