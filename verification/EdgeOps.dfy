/**
 * The two edge-kind rewrites of Source/Actions.cpp: `swapBlockingAndInPairningEdgeType`
 * (applied along an alternating path) and `setBlockingEdgeToRegular`.
 */
module EdgeOps {
  import opened Wrappers
  import opened Seqs
  import opened Forest

  /** `swapBlockingAndInPairningEdgeType` (Source/Actions.cpp:545-552) on a kind. */
  function Swapped(k: EdgeKind): (r: EdgeKind) {
    match k
    case FullBlocking => FullInPairing
    case FullInPairing => FullBlocking
    case Regular => Regular
  }

  /** The swap exchanges the two full kinds, fixes the regular one, and undoes itself. */
  lemma SwappedFacts(k: EdgeKind)
    ensures Swapped(Swapped(k)) == k
    ensures Swapped(k) == Regular <==> k == Regular
    ensures k != Regular ==> Swapped(k) != k
  {
  }

  /** The swap applied to edge `e` of the arena. */
  function SwapEdge(a: Arena, e: EdgeId): (r: Arena)
    requires WellFormed(a) && e < |a.edges|
    ensures WellFormed(r) && r.flowers == a.flowers && |r.edges| == |a.edges|
    ensures r.edges[e] == a.edges[e].(kind := Swapped(a.edges[e].kind))
    ensures forall j :: 0 <= j < |a.edges| && j != e ==> r.edges[j] == a.edges[j]
  {
    SetEdgeKind(a, e, Swapped(a.edges[e].kind))
  }

  /** The kind edge `j` ends with after being swapped once per occurrence in `es`. */
  function KindAfterSwaps(k: EdgeKind, es: seq<EdgeId>, j: EdgeId): EdgeKind {
    if multiset(es)[j] % 2 == 1 then Swapped(k) else k
  }

  /**
   * The loops of Source/Actions.cpp:566-568 and 594-596: swap every edge of the path in
   * turn.  An edge listed an odd number of times ends swapped, any other edge keeps its
   * kind, and nothing but kinds changes.
   */
  function SwapAll(a: Arena, es: seq<EdgeId>): (r: Arena)
    requires WellFormed(a) && AllBelow(es, |a.edges|)
    ensures WellFormed(r) && r.flowers == a.flowers && |r.edges| == |a.edges|
    ensures forall j :: 0 <= j < |a.edges| ==>
              r.edges[j] == a.edges[j].(kind := KindAfterSwaps(a.edges[j].kind, es, j))
    decreases |es|
  {
    if es == [] then a
    else
      assert es == [es[0]] + es[1..];
      SwapAll(SwapEdge(a, es[0]), es[1..])
  }

  /** Swapping along the same path twice restores every kind. */
  lemma SwapAllTwice(a: Arena, es: seq<EdgeId>)
    requires WellFormed(a) && AllBelow(es, |a.edges|)
    ensures SwapAll(SwapAll(a, es), es) == a
  {
    var b := SwapAll(a, es);
    var c := SwapAll(b, es);
    forall j | 0 <= j < |a.edges|
      ensures c.edges[j] == a.edges[j]
    {
      SwappedFacts(a.edges[j].kind);
    }
    assert c.edges == a.edges;
  }

  /**
   * The loop of `setBlockingEdgeToRegular` over the edges `es`: every full-blocking
   * edge that reaches `fb` becomes regular.
   */
  function ClearBlocking(a: Arena, es: seq<EdgeId>, fb: FlowerId): (r: Arena)
    requires WellFormed(a) && AllBelow(es, |a.edges|)
    ensures WellFormed(r) && r.flowers == a.flowers && |r.edges| == |a.edges|
    ensures forall j :: 0 <= j < |a.edges| ==>
              r.edges[j] == if j in es && EdgeMatches(a, j, FullBlocking, Some(fb))
                            then a.edges[j].(kind := Regular) else a.edges[j]
    decreases |es|
  {
    if es == [] then a
    else
      var e := es[0];
      assert es == [e] + es[1..];
      var b := if EdgeMatches(a, e, FullBlocking, Some(fb)) then SetEdgeKind(a, e, Regular) else a;
      ClearBlocking(b, es[1..], fb)
  }

  /**
   * `setBlockingEdgeToRegular` (Source/Actions.cpp:214-224): the full-blocking edges of
   * `fa` that reach `fb` become regular; no other edge and no flower changes.
   */
  function SetBlockingEdgeToRegular(a: Arena, fa: FlowerId, fb: FlowerId): (r: Arena)
    requires WellFormed(a) && fa < |a.flowers|
    ensures WellFormed(r) && r.flowers == a.flowers && |r.edges| == |a.edges|
    ensures forall j :: 0 <= j < |a.edges| ==>
              r.edges[j] == if j in a.flowers[fa].edges && EdgeMatches(a, j, FullBlocking, Some(fb))
                            then a.edges[j].(kind := Regular) else a.edges[j]
  {
    ClearBlocking(a, a.flowers[fa].edges, fb)
  }
}
