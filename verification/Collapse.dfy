/**
 * Augmentation: `executeCollapseTree` (Source/Actions.cpp:554-605) with its helpers
 * `preprocessAlternatingPathEdges` (Source/Actions.cpp:455-532) and `dismantleTree`
 * (Source/Actions.cpp:534-543).  A tight edge between two trees becomes a pairing
 * edge; the alternating paths from its endpoints to the two roots, threaded through
 * the blossoms they cross, swap their blocking and pairing edges; and both trees
 * fall apart into dumbbells.
 */
module Collapse {
  import opened Wrappers
  import opened Seqs
  import opened Forest
  import opened Reorder
  import opened EdgeOps

  // ---------------------------------------------------------------------------------------------
  // `preprocessAlternatingPathEdges`.

  /** `b` differs from `a` at most in the stems of the flowers with ids up to `top`. */
  predicate Restemmed(a: Arena, b: Arena, top: int) {
    && |b.flowers| == |a.flowers| && b.edges == a.edges
    && (forall x :: 0 <= x < |a.flowers| ==> b.flowers[x] == a.flowers[x].(stem := b.flowers[x].stem))
    && (forall x :: 0 <= x < |a.flowers| && top < x ==> b.flowers[x] == a.flowers[x])
  }

  lemma RestemmedTrans(a: Arena, b: Arena, c: Arena, t1: int, t2: int, top: int)
    requires Restemmed(a, b, t1) && Restemmed(b, c, t2) && t1 <= top && t2 <= top
    ensures Restemmed(a, c, top)
  {
  }

  /** How many of the listed edges, counted with repeats, have kind `k` in `ed`. */
  function CountKind(ed: seq<Edge>, es: seq<EdgeId>, k: EdgeKind): nat
    decreases |es|
  {
    if es == [] then 0
    else (if es[0] < |ed| && ed[es[0]].kind == k then 1 else 0) + CountKind(ed, es[1..], k)
  }

  lemma {:induction false} CountKindConcat(ed: seq<Edge>, xs: seq<EdgeId>, ys: seq<EdgeId>, k: EdgeKind)
    ensures CountKind(ed, xs + ys, k) == CountKind(ed, xs, k) + CountKind(ed, ys, k)
    decreases |xs|
  {
    if xs == [] {
      assert xs + ys == ys;
    } else {
      assert (xs + ys)[0] == xs[0] && (xs + ys)[1..] == xs[1..] + ys;
      CountKindConcat(ed, xs[1..], ys, k);
    }
  }

  /**
   * Every listed edge is full, and as many of them are full-blocking as are in the
   * pairing: the shape of an alternating path, which the swap turns into its mirror.
   */
  predicate Balanced(ed: seq<Edge>, es: seq<EdgeId>) {
    && (forall i :: 0 <= i < |es| ==> es[i] < |ed| && ed[es[i]].IsFull())
    && CountKind(ed, es, FullBlocking) == CountKind(ed, es, FullInPairing)
  }

  lemma BalancedConcat(ed: seq<Edge>, xs: seq<EdgeId>, ys: seq<EdgeId>)
    requires Balanced(ed, xs) && Balanced(ed, ys)
    ensures Balanced(ed, xs + ys)
  {
    CountKindConcat(ed, xs, ys, FullBlocking);
    CountKindConcat(ed, xs, ys, FullInPairing);
    forall i | 0 <= i < |xs + ys|
      ensures (xs + ys)[i] < |ed| && ed[(xs + ys)[i]].IsFull()
    {
      if i >= |xs| {
        assert (xs + ys)[i] == ys[i - |xs|];
      }
    }
  }

  /** A balanced path framed by a blocking edge in front and a pairing edge behind stays balanced. */
  lemma BalancedFramed(ed: seq<Edge>, se: EdgeId, xs: seq<EdgeId>, pe: EdgeId)
    requires Balanced(ed, xs) && se < |ed| && ed[se].kind == FullBlocking && pe < |ed| && ed[pe].kind == FullInPairing
    ensures Balanced(ed, [se] + xs + [pe])
  {
    var ys := [se] + xs + [pe];
    CountKindConcat(ed, [se], xs, FullBlocking);
    CountKindConcat(ed, [se], xs, FullInPairing);
    CountKindConcat(ed, [se] + xs, [pe], FullBlocking);
    CountKindConcat(ed, [se] + xs, [pe], FullInPairing);
    assert [se][1..] == [] && [pe][1..] == [];
    forall i | 0 <= i < |ys|
      ensures ys[i] < |ed| && ed[ys[i]].IsFull()
    {
      if 0 < i < |ys| - 1 {
        assert ys[i] == xs[i - 1];
      }
    }
  }

  /** Position in `subs` of the first subflower whose edges hold `out`, if any. */
  function FirstHolding(a: Arena, subs: seq<FlowerId>, out: EdgeId): (r: Option<nat>)
    requires AllBelow(subs, |a.flowers|)
    ensures r.Some? ==> r.value < |subs| && out in a.flowers[subs[r.value]].edges
                        && forall i :: 0 <= i < r.value ==> out !in a.flowers[subs[i]].edges
    ensures r.None? <==> forall i :: 0 <= i < |subs| ==> out !in a.flowers[subs[i]].edges
  {
    if subs == [] then None
    else if out in a.flowers[subs[0]].edges then Some(0)
    else
      match FirstHolding(a, subs[1..], out)
      case None => None
      case Some(i) => Some(i + 1)
  }

  /**
   * The search of Source/Actions.cpp:463-470: the first subflower of `f` whose edge
   * list holds the outgoing edge; `None` when there is none (the source keeps null).
   */
  function OutgoingSub(a: Arena, f: FlowerId, out: EdgeId): (r: Option<FlowerId>)
    requires WellFormed(a) && f < |a.flowers|
    ensures r.Some? ==> r.value in a.flowers[f].subFlowers && out in a.flowers[r.value].edges
    ensures r.None? <==> forall x :: x in a.flowers[f].subFlowers ==> out !in a.flowers[x].edges
  {
    var subs := a.flowers[f].subFlowers;
    assert AllBelow(subs, |a.flowers|) by {
      forall i | 0 <= i < |subs| ensures subs[i] < |a.flowers| {}
    }
    match FirstHolding(a, subs, out)
    case None => None
    case Some(i) => Some(subs[i])
  }

  /**
   * `preprocessAlternatingPathEdges`: the edges of the alternating path through the
   * nested blossoms of `f` from its stem to the subflower holding `out`, in the order
   * the source lists them; along the way every blossom crossed is re-stemmed at that
   * subflower.  `None` when the list would hold a null edge (no full-blocking edge
   * between two consecutive subflowers, or a blue stem without a pairing edge), which
   * the caller then dereferences.
   */
  function Preprocess(a: Arena, f: FlowerId, out: EdgeId): (r: Option<(Arena, seq<EdgeId>)>)
    requires WellFormed(a) && f < |a.flowers| && out < |a.edges|
    ensures r.Some? ==> WellFormed(r.value.0) && Restemmed(a, r.value.0, f) && AllBelow(r.value.1, |a.edges|)
    ensures r.Some? ==> Balanced(a.edges, r.value.1)
    ensures a.flowers[f].subFlowers == [] ==> r == Some((a, []))
    ensures r.Some? && a.flowers[f].subFlowers != [] ==> r.value.0.flowers[f].stem == OutgoingSub(a, f, out)
    decreases f, 1
  {
    var fl := a.flowers[f];
    if fl.subFlowers == [] then Some((a, []))
    else
      var o := OutgoingSub(a, f, out);
      var re := Arrange(a, f, o);
      var ys, hi := re.0, re.1;
      match Pairs(a, f, ys, 0, hi)
      case None => None
      case Some(p) =>
        var b := p.0;
        match Preprocess(b, ys[hi], out)
        case None => None
        case Some(q) =>
          var c := q.0;
          RestemmedTrans(a, b, c, f - 1, ys[hi], f);
          BalancedConcat(a.edges, p.1, q.1);
          Some((SetStem(c, f, o), p.1 + q.1))
  }

  /**
   * Source/Actions.cpp:473-489: the subflowers of `f` reordered from the stem subflower
   * `ys[0]` to the outgoing subflower `ys[hi]` (both found by index loops that keep the
   * last match, or position 0 when there is none).
   */
  function Arrange(a: Arena, f: FlowerId, o: Option<FlowerId>): (r: (seq<FlowerId>, nat))
    requires WellFormed(a) && f < |a.flowers| && a.flowers[f].subFlowers != []
    ensures AllBelow(r.0, f) && r.1 < |r.0| && multiset(r.0) == multiset(a.flowers[f].subFlowers)
    ensures var fl := a.flowers[f];
            && (fl.stem.Some? ==> r.0[0] == fl.stem.value)
            && (o.Some? && o.value in fl.subFlowers ==> r.0[r.1] == o.value)
            && (|fl.subFlowers| % 2 == 1 ==> r.1 % 2 == 0)
  {
    var fl := a.flowers[f];
    var subs := fl.subFlowers;
    var stemAt := if fl.stem.Some? then LastIndex(subs, fl.stem.value) else 0;
    var outAt := if o.Some? then LastIndex(subs, o.value) else 0;
    var re := ReorderFlowers(subs, stemAt, outAt);
    AllBelowPermutation(re.0, subs, f);
    re
  }

  /**
   * The loop of Source/Actions.cpp:491-520 from position `i`: for each pair of
   * consecutive subflowers A, B before the outgoing one, the path inside A, the
   * full-blocking edge from A to B, the path inside B, and the pairing edge of B's
   * blue stem.
   */
  function Pairs(a: Arena, f: FlowerId, ys: seq<FlowerId>, i: nat, hi: nat): (r: Option<(Arena, seq<EdgeId>)>)
    requires WellFormed(a) && f < |a.flowers| && AllBelow(ys, f) && hi < |ys| && i <= |ys|
    ensures r.Some? ==> WellFormed(r.value.0) && Restemmed(a, r.value.0, f - 1) && AllBelow(r.value.1, |a.edges|)
    ensures r.Some? ==> Balanced(a.edges, r.value.1)
    decreases f, 0, |ys| - i
  {
    if i >= hi then Some((a, []))
    else
      assert ys[i] < f;
      match PairStep(a, f - 1, ys[i], ys[i + 1])
      case None => None
      case Some(p) =>
        match Pairs(p.0, f, ys, i + 2, hi)
        case None => None
        case Some(q) =>
          RestemmedTrans(a, p.0, q.0, f - 1, f - 1, f - 1);
          BalancedConcat(a.edges, p.1, q.1);
          Some((q.0, p.1 + q.1))
  }

  /**
   * One iteration of that loop, on the subflowers `fa` and `fb`.  `None` when there is no
   * full-blocking edge from `fa` to `fb` or no pairing edge at `fb`'s blue stem, or a
   * sub-path holds a null edge.
   */
  function PairStep(a: Arena, top: nat, fa: FlowerId, fb: FlowerId): (r: Option<(Arena, seq<EdgeId>)>)
    requires WellFormed(a) && fa <= top && fb <= top && top < |a.flowers|
    ensures r.Some? ==> WellFormed(r.value.0) && Restemmed(a, r.value.0, top) && AllBelow(r.value.1, |a.edges|)
    ensures r.Some? ==> Balanced(a.edges, r.value.1)
    ensures FindEdge(a, a.flowers[fa].edges, FullBlocking, Some(fb)).None? ==> r.None?
    decreases top, 2
  {
    var es := a.flowers[fa].edges;
    match FindEdge(a, es, FullBlocking, Some(fb))
    case None => None
    case Some(k) =>
      var se := es[k];
      match Preprocess(a, fa, se)
      case None => None
      case Some(pa) =>
        var b := pa.0;
        match Preprocess(b, fb, se)
        case None => None
        case Some(pb) =>
          var c := pb.0;
          match InPairingEdge(c, BlueStem(c, fb))
          case None => None
          case Some(pe) =>
            RestemmedTrans(a, b, c, fa, fb, top);
            AllBelowConcat(pa.1, [se], |a.edges|);
            AllBelowConcat(pa.1 + [se], pb.1, |a.edges|);
            AllBelowConcat(pa.1 + [se] + pb.1, [pe], |a.edges|);
            PairPath(a.edges, pa.1, se, pb.1, pe);
            Some((c, pa.1 + [se] + pb.1 + [pe]))
  }

  /**
   * One iteration of the pair loop lists a balanced path that holds the full-blocking
   * edge joining `fa` to `fb` and ends with a pairing edge.
   */
  lemma PairStepBalanced(a: Arena, top: nat, fa: FlowerId, fb: FlowerId)
    requires WellFormed(a) && fa <= top && fb <= top && top < |a.flowers| && PairStep(a, top, fa, fb).Some?
    ensures var path := PairStep(a, top, fa, fb).value.1;
            && Balanced(a.edges, path) && |path| >= 2 && a.edges[path[|path| - 1]].kind == FullInPairing
            && exists k :: 0 <= k < |path| && path[k] in a.flowers[fa].edges
                           && EdgeMatches(a, path[k], FullBlocking, Some(fb))
  {
    var es := a.flowers[fa].edges;
    var k := FindEdge(a, es, FullBlocking, Some(fb)).value;
    var se := es[k];
    var pa := Preprocess(a, fa, se).value;
    var pb := Preprocess(pa.0, fb, se).value;
    var c := pb.0;
    var pe := InPairingEdge(c, BlueStem(c, fb)).value;
    PairPath(a.edges, pa.1, se, pb.1, pe);
    var path := pa.1 + [se] + pb.1 + [pe];
    assert PairStep(a, top, fa, fb).value.1 == path;
    assert path[|pa.1|] in a.flowers[fa].edges && EdgeMatches(a, path[|pa.1|], FullBlocking, Some(fb));
  }

  /** The list one iteration of the pair loop builds: balanced, `se` at its seam, `pe` last. */
  lemma PairPath(ed: seq<Edge>, pa: seq<EdgeId>, se: EdgeId, pb: seq<EdgeId>, pe: EdgeId)
    requires Balanced(ed, pa) && Balanced(ed, pb)
    requires se < |ed| && ed[se].kind == FullBlocking && pe < |ed| && ed[pe].kind == FullInPairing
    ensures var path := pa + [se] + pb + [pe];
            Balanced(ed, path) && |path| >= 2 && path[|pa|] == se && path[|path| - 1] == pe
  {
    BalancedFramed(ed, se, pb, pe);
    BalancedConcat(ed, pa, [se] + pb + [pe]);
    assert pa + [se] + pb + [pe] == pa + ([se] + pb + [pe]);
  }

  // ---------------------------------------------------------------------------------------------
  // `dismantleTree`.

  /** What `dismantleTree` leaves of a flower: a dumbbell member without tree links. */
  function Settle(fl: Flower): (r: Flower)
    ensures Settled(r)
  {
    fl.(kind := InDumbbell, parent := None, children := [])
  }

  predicate Settled(fl: Flower) {
    fl.kind == InDumbbell && fl.parent.None? && fl.children == []
  }

  /** Every child (in `a`) of a flower in `vs` is in `vs`. */
  ghost predicate ChildClosed(a: Arena, vs: seq<FlowerId>) {
    forall x, c :: 0 <= x < |a.flowers| && x in vs && c in a.flowers[x].children ==> c in vs
  }

  /** `b` is `a` with exactly the flowers of `vs` settled. */
  ghost predicate SettledAs(a: Arena, b: Arena, vs: seq<FlowerId>) {
    && |b.flowers| == |a.flowers| && b.edges == a.edges && AllBelow(vs, |a.flowers|)
    && (forall x :: 0 <= x < |a.flowers| ==>
          b.flowers[x] == if x in vs then Settle(a.flowers[x]) else a.flowers[x])
  }

  /**
   * `dismantleTree` on `f`, with the flowers it visits: first the subtrees of its
   * children in order, then `f` itself.  `None` when the recursion outruns `fuel`
   * (a cycle of child links, on which the source recurses forever).
   */
  function Dismantle(a: Arena, f: FlowerId, fuel: nat): (r: Option<(Arena, seq<FlowerId>)>)
    requires WellFormed(a) && f < |a.flowers|
    ensures r.Some? ==> && WellFormed(r.value.0) && f in r.value.1
                        && SettledAs(a, r.value.0, r.value.1) && ChildClosed(a, r.value.1)
    decreases fuel, 0
  {
    if fuel == 0 then None
    else
      match DismantleAll(a, a.flowers[f].children, fuel - 1)
      case None => None
      case Some(p) =>
        var b, vs := p.0, p.1;
        DismantleSelf(a, b, f, vs);
        Some((SetFlower(b, f, Settle(b.flowers[f])), vs + [f]))
  }

  lemma DismantleSelf(a: Arena, b: Arena, f: FlowerId, vs: seq<FlowerId>)
    requires WellFormed(a) && WellFormed(b) && f < |a.flowers|
    requires SettledAs(a, b, vs) && ChildClosed(a, vs) && forall c :: c in a.flowers[f].children ==> c in vs
    ensures SettledAs(a, SetFlower(b, f, Settle(b.flowers[f])), vs + [f])
    ensures ChildClosed(a, vs + [f])
  {
  }

  /** The loop of Source/Actions.cpp:536-538 over the children `cs`. */
  function DismantleAll(a: Arena, cs: seq<FlowerId>, fuel: nat): (r: Option<(Arena, seq<FlowerId>)>)
    requires WellFormed(a) && AllBelow(cs, |a.flowers|)
    ensures r.Some? ==> && WellFormed(r.value.0) && (forall c :: c in cs ==> c in r.value.1)
                        && SettledAs(a, r.value.0, r.value.1) && ChildClosed(a, r.value.1)
    decreases fuel, 1, |cs|
  {
    if cs == [] then Some((a, []))
    else
      match Dismantle(a, cs[0], fuel)
      case None => None
      case Some(p) =>
        assert AllBelow(cs[1..], |p.0.flowers|) by {
          forall i | 0 <= i < |cs| - 1 ensures cs[1..][i] < |p.0.flowers| { assert cs[1..][i] == cs[i + 1]; }
        }
        match DismantleAll(p.0, cs[1..], fuel)
        case None => None
        case Some(q) =>
          DismantleJoin(a, p.0, q.0, p.1, q.1);
          assert cs == [cs[0]] + cs[1..];
          Some((q.0, p.1 + q.1))
  }

  /** Two dismantles in a row settle the flowers either visits and stay child-closed. */
  lemma DismantleJoin(a: Arena, b: Arena, c: Arena, v1: seq<FlowerId>, v2: seq<FlowerId>)
    requires SettledAs(a, b, v1) && ChildClosed(a, v1) && SettledAs(b, c, v2) && ChildClosed(b, v2)
    ensures SettledAs(a, c, v1 + v2) && ChildClosed(a, v1 + v2)
  {
    forall x | 0 <= x < |a.flowers|
      ensures c.flowers[x] == if x in v1 + v2 then Settle(a.flowers[x]) else a.flowers[x]
    {
    }
    forall x, ch | 0 <= x < |a.flowers| && x in v1 + v2 && ch in a.flowers[x].children
      ensures ch in v1 + v2
    {
      if x !in v1 {
        assert b.flowers[x] == a.flowers[x];
      }
    }
  }

  /** `x` is reached from `t` by at most `k` child links. */
  ghost predicate Below(a: Arena, t: FlowerId, x: FlowerId, k: nat)
    decreases k
  {
    x == t || (k > 0 && t < |a.flowers| && exists c :: c in a.flowers[t].children && Below(a, c, x, k - 1))
  }

  /** A child-closed set holds everything below each of its members. */
  lemma {:induction false} ClosedBelow(a: Arena, vs: seq<FlowerId>, t: FlowerId, x: FlowerId, k: nat)
    requires ChildClosed(a, vs) && t in vs && Below(a, t, x, k)
    ensures x in vs
    decreases k
  {
    if x != t {
      var c :| c in a.flowers[t].children && Below(a, c, x, k - 1);
      ClosedBelow(a, vs, c, x, k - 1);
    }
  }

  /** Every flower below `f` ends settled: the whole tree under `f` becomes dumbbell members. */
  lemma DismantleSettlesTree(a: Arena, f: FlowerId, fuel: nat, x: FlowerId, k: nat)
    requires WellFormed(a) && f < |a.flowers| && Dismantle(a, f, fuel).Some? && Below(a, f, x, k) && x < |a.flowers|
    ensures Settled(Dismantle(a, f, fuel).value.0.flowers[x])
  {
    var p := Dismantle(a, f, fuel).value;
    ClosedBelow(a, p.1, f, x, k);
  }

  // ---------------------------------------------------------------------------------------------
  // `executeCollapseTree`.

  /** `b` keeps every field of `a` except flower stems and edge kinds. */
  predicate StemsAndKinds(a: Arena, b: Arena) {
    && |b.flowers| == |a.flowers| && |b.edges| == |a.edges|
    && (forall x :: 0 <= x < |a.flowers| ==> b.flowers[x] == a.flowers[x].(stem := b.flowers[x].stem))
    && (forall j :: 0 <= j < |a.edges| ==> b.edges[j] == a.edges[j].(kind := b.edges[j].kind))
  }

  lemma StemsAndKindsTrans(a: Arena, b: Arena, c: Arena)
    requires StemsAndKinds(a, b) && StemsAndKinds(b, c)
    ensures StemsAndKinds(a, c)
  {
  }

  /**
   * `b` changes the kind of no edge outside `ts`, every edge of `ts` is full, and no edge
   * turns from regular to full or back: the collapse only moves full edges between the
   * blocking and the pairing kind.
   */
  predicate FlipsWithin(a: seq<Edge>, b: seq<Edge>, ts: seq<EdgeId>) {
    && |b| == |a|
    && (forall i :: 0 <= i < |ts| ==> ts[i] < |a| && a[ts[i]].IsFull())
    && (forall j :: 0 <= j < |a| ==> (b[j].IsFull() <==> a[j].IsFull()))
    && (forall j :: 0 <= j < |a| && j !in ts ==> b[j].kind == a[j].kind)
  }

  lemma FlipsWithinTrans(a: seq<Edge>, b: seq<Edge>, c: seq<Edge>, t1: seq<EdgeId>, t2: seq<EdgeId>)
    requires FlipsWithin(a, b, t1) && FlipsWithin(b, c, t2)
    ensures FlipsWithin(a, c, t1 + t2)
  {
    forall i | 0 <= i < |t1 + t2|
      ensures (t1 + t2)[i] < |a| && a[(t1 + t2)[i]].IsFull()
    {
      if i >= |t1| {
        assert (t1 + t2)[i] == t2[i - |t1|];
      }
    }
  }

  /** Swapping along a list of full edges flips exactly within that list. */
  lemma SwapAllFlips(a: Arena, es: seq<EdgeId>)
    requires WellFormed(a) && AllBelow(es, |a.edges|)
    requires forall i :: 0 <= i < |es| ==> a.edges[es[i]].IsFull()
    ensures FlipsWithin(a.edges, SwapAll(a, es).edges, es)
  {
    var b := SwapAll(a, es);
    forall j | 0 <= j < |a.edges|
      ensures (b.edges[j].IsFull() <==> a.edges[j].IsFull()) && (j !in es ==> b.edges[j].kind == a.edges[j].kind)
    {
      SwappedFacts(a.edges[j].kind);
      if j !in es {
        assert multiset(es)[j] == 0;
      }
    }
  }

  /**
   * Process the alternating path of a flower (Source/Actions.cpp:564-569): compute it
   * and swap every edge on it.  Returns the arena and the path.
   */
  function Alternate(a: Arena, f: FlowerId, out: EdgeId): (r: Option<(Arena, seq<EdgeId>)>)
    requires WellFormed(a) && f < |a.flowers| && out < |a.edges|
    ensures r.Some? ==> WellFormed(r.value.0) && StemsAndKinds(a, r.value.0)
    ensures a.flowers[f].subFlowers == [] ==> r == Some((a, []))
  {
    match Preprocess(a, f, out)
    case None => None
    case Some(p) =>
      var b := SwapAll(p.0, p.1);
      assert a.flowers[f].subFlowers == [] ==> b == a by {
        if a.flowers[f].subFlowers == [] {
          assert p.1 == [];
        }
      }
      Some((b, p.1))
  }

  /**
   * The swap along the path: `Alternate` fails exactly when `Preprocess` does, swaps
   * the balanced path `Preprocess` lists, and every edge ends swapped exactly when the
   * path lists it an odd number of times; so it flips only full edges, only on the path.
   */
  lemma AlternateSwaps(a: Arena, f: FlowerId, out: EdgeId)
    requires WellFormed(a) && f < |a.flowers| && out < |a.edges|
    ensures Alternate(a, f, out).Some? <==> Preprocess(a, f, out).Some?
    ensures Alternate(a, f, out).Some? ==>
              var r := Alternate(a, f, out).value;
              && r.1 == Preprocess(a, f, out).value.1 && Balanced(a.edges, r.1)
              && (forall j :: 0 <= j < |a.edges| ==> r.0.edges[j].kind == KindAfterSwaps(a.edges[j].kind, r.1, j))
              && FlipsWithin(a.edges, r.0.edges, r.1)
  {
    if Preprocess(a, f, out).Some? {
      var p := Preprocess(a, f, out).value;
      SwapAllFlips(p.0, p.1);
    }
  }

  /**
   * The edge loop of Source/Actions.cpp:583-591: the first full-blocking edge of `gp`
   * reaching `g` becomes a pairing edge and is the next outgoing edge.  Without one the
   * loop variable ends on the last edge of `gp`, or keeps `out` when `gp` has none.
   */
  function NextOutgoing(a: Arena, gp: FlowerId, g: FlowerId, out: EdgeId): (r: (Arena, EdgeId, bool))
    requires WellFormed(a) && gp < |a.flowers| && out < |a.edges|
    ensures WellFormed(r.0) && StemsAndKinds(a, r.0) && r.1 < |a.edges|
    ensures var es := a.flowers[gp].edges;
            match FindEdge(a, es, FullBlocking, Some(g))
            case Some(k) => r.2 && r.1 == es[k] && r.0 == SetEdgeKind(a, es[k], FullInPairing)
            case None => !r.2 && r.0 == a && r.1 == if es == [] then out else es[|es| - 1]
  {
    var es := a.flowers[gp].edges;
    match FindEdge(a, es, FullBlocking, Some(g))
    case Some(k) => (SetEdgeKind(a, es[k], FullInPairing), es[k], true)
    case None => (a, if es == [] then out else es[|es| - 1], false)
  }

  /**
   * What one step of the walk leaves: the arena, the next flower `next` (the parent of the
   * odd flower `g`), the next outgoing edge, `g`'s former pairing edge, whether an edge from
   * `next` to `g` was raised into the pairing, and the alternating path swapped inside `g`.
   */
  datatype Climbed = Climbed(arena: Arena, next: FlowerId, out: EdgeId, unpaired: EdgeId, raised: bool, path: seq<EdgeId>)

  /** Edge `e` reaches `g` and is full-blocking once `unpaired` has been made blocking. */
  predicate Raisable(b: Arena, unpaired: EdgeId, g: FlowerId, e: EdgeId) {
    e < |b.edges| && g in b.edges[e].flowers && (e == unpaired || b.edges[e].kind == FullBlocking)
  }

  /**
   * The kind of edge `j` after the two writes of a step, before the path is swapped: the
   * unpaired edge becomes blocking (Source/Actions.cpp:578), then the raised edge becomes
   * pairing (Source/Actions.cpp:587).
   */
  function Rekinded(k: EdgeKind, j: EdgeId, unpaired: EdgeId, out: EdgeId, raised: bool): EdgeKind {
    if raised && j == out then FullInPairing else if j == unpaired then FullBlocking else k
  }

  /** The edges a step may change: the unpaired edge, the raised edge and the swapped path. */
  function Touched(h: Climbed): seq<EdgeId> {
    [h.unpaired] + (if h.raised then [h.out] else []) + h.path
  }

  /**
   * One step of the walk above the even flower `f`, whose parent is the odd flower `g`
   * (Source/Actions.cpp:575-598): `g`'s pairing edge is made blocking, the first
   * blocking edge from `g`'s parent to `g` is made pairing and becomes the outgoing
   * edge, and `g`'s alternating path is swapped.  `None` when `g` has no pairing edge
   * or no parent, or its path holds a null edge.
   */
  function Climb(b: Arena, f: FlowerId, out: EdgeId): (r: Option<Climbed>)
    requires WellFormed(b) && f < |b.flowers| && out < |b.edges| && b.flowers[f].parent.Some?
    ensures r.Some? ==> var h := r.value; var g := b.flowers[f].parent.value;
              && WellFormed(h.arena) && StemsAndKinds(b, h.arena) && h.next < |b.flowers| && h.out < |b.edges|
              && g < |b.flowers| && b.flowers[g].parent == Some(h.next)
  {
    var g := b.flowers[f].parent.value;
    match InPairingEdge(b, g)
    case None => None
    case Some(pe) =>
      var c := SetEdgeKind(b, pe, FullBlocking);
      match c.flowers[g].parent
      case None => None
      case Some(gp) =>
        var n := NextOutgoing(c, gp, g, out);
        match Alternate(n.0, g, n.1)
        case None => None
        case Some(d) =>
          StemsAndKindsTrans(b, c, n.0);
          StemsAndKindsTrans(b, n.0, d.0);
          Some(Climbed(d.0, gp, n.1, pe, n.2, d.1))
  }

  /**
   * What a step writes: `g`'s former pairing edge is made blocking, the raised edge is a
   * blocking edge from `g`'s parent to `g` (without one there is none), and every edge
   * ends with the kind those two writes give it, swapped when `g`'s path lists it an odd
   * number of times; so it flips only full edges, only among its touched edges.
   */
  lemma ClimbEffect(b: Arena, f: FlowerId, out: EdgeId)
    requires WellFormed(b) && f < |b.flowers| && out < |b.edges| && b.flowers[f].parent.Some?
    requires Climb(b, f, out).Some?
    ensures var h := Climb(b, f, out).value; var g := b.flowers[f].parent.value;
            && g < |b.flowers| && h.next < |b.flowers|
            && InPairingEdge(b, g) == Some(h.unpaired)
            && (h.raised ==> h.out in b.flowers[h.next].edges && Raisable(b, h.unpaired, g, h.out))
            && (!h.raised ==> forall e :: e in b.flowers[h.next].edges ==> !Raisable(b, h.unpaired, g, e))
            && (forall j :: 0 <= j < |b.edges| ==>
                  h.arena.edges[j].kind == KindAfterSwaps(Rekinded(b.edges[j].kind, j, h.unpaired, h.out, h.raised), h.path, j))
            && FlipsWithin(b.edges, h.arena.edges, Touched(h))
  {
    var g := b.flowers[f].parent.value;
    var pe := InPairingEdge(b, g).value;
    var c := SetEdgeKind(b, pe, FullBlocking);
    var gp := c.flowers[g].parent.value;
    var n := NextOutgoing(c, gp, g, out);
    var d := Alternate(n.0, g, n.1).value;
    AlternateSwaps(n.0, g, n.1);
    assert Climb(b, f, out) == Some(Climbed(d.0, gp, n.1, pe, n.2, d.1));
    ClimbKinds(b, pe, c, n.0, d.0, gp, g, out, n.1, n.2, d.1);
    ClimbRaised(b, pe, c, gp, g, out, n.1, n.2);
    ClimbFlips(b.edges, c.edges, n.0.edges, d.0.edges, pe, n.1, n.2, d.1);
  }

  /** The kinds a step leaves: its two writes, then the swap along the path. */
  lemma ClimbKinds(b: Arena, pe: EdgeId, c: Arena, n: Arena, d: Arena, gp: FlowerId, g: FlowerId,
                   out: EdgeId, o: EdgeId, raised: bool, path: seq<EdgeId>)
    requires WellFormed(b) && pe < |b.edges| && gp < |b.flowers| && out < |b.edges|
    requires c == SetEdgeKind(b, pe, FullBlocking)
    requires (n, o, raised) == NextOutgoing(c, gp, g, out)
    requires |d.edges| == |n.edges|
    requires forall j :: 0 <= j < |n.edges| ==> d.edges[j].kind == KindAfterSwaps(n.edges[j].kind, path, j)
    ensures forall j :: 0 <= j < |b.edges| ==>
              d.edges[j].kind == KindAfterSwaps(Rekinded(b.edges[j].kind, j, pe, o, raised), path, j)
  {
    forall j | 0 <= j < |b.edges|
      ensures n.edges[j].kind == Rekinded(b.edges[j].kind, j, pe, o, raised)
    {
    }
  }

  /** The raised edge is a blocking edge from `gp` to `g`; without one there is none. */
  lemma ClimbRaised(b: Arena, pe: EdgeId, c: Arena, gp: FlowerId, g: FlowerId, out: EdgeId, o: EdgeId, raised: bool)
    requires WellFormed(b) && pe < |b.edges| && gp < |b.flowers| && out < |b.edges|
    requires c == SetEdgeKind(b, pe, FullBlocking)
    requires o == NextOutgoing(c, gp, g, out).1 && raised == NextOutgoing(c, gp, g, out).2
    ensures raised ==> o in b.flowers[gp].edges && Raisable(b, pe, g, o)
    ensures !raised ==> forall e :: e in b.flowers[gp].edges ==> !Raisable(b, pe, g, e)
  {
    var es := c.flowers[gp].edges;
    if !raised {
      forall e | e in b.flowers[gp].edges
        ensures !Raisable(b, pe, g, e)
      {
        var i :| 0 <= i < |es| && es[i] == e;
        assert !EdgeMatches(c, es[i], FullBlocking, Some(g));
      }
    }
  }

  /** A step flips within its touched edges. */
  lemma ClimbFlips(be: seq<Edge>, ce: seq<Edge>, ne: seq<Edge>, de: seq<Edge>, pe: EdgeId, o: EdgeId,
                   raised: bool, path: seq<EdgeId>)
    requires |ce| == |be| && pe < |be| && be[pe].kind == FullInPairing && ce[pe].kind == FullBlocking
    requires forall i :: 0 <= i < |be| && i != pe ==> ce[i].kind == be[i].kind
    requires raised ==> |ne| == |ce| && o < |ce| && ce[o].kind == FullBlocking && ne[o].kind == FullInPairing
    requires raised ==> forall i :: 0 <= i < |ce| && i != o ==> ne[i].kind == ce[i].kind
    requires !raised ==> ne == ce
    requires FlipsWithin(ne, de, path)
    ensures FlipsWithin(be, de, [pe] + (if raised then [o] else []) + path)
  {
    assert FlipsWithin(be, ce, [pe]);
    assert FlipsWithin(ce, ne, if raised then [o] else []);
    FlipsWithinTrans(be, ce, ne, [pe], if raised then [o] else []);
    FlipsWithinTrans(be, ne, de, [pe] + (if raised then [o] else []), path);
  }

  /** The walk climbs parent links the processing never changes, so it ends at the root. */
  lemma ClimbRoot(a: Arena, b: Arena, d: Arena, f: FlowerId, gp: FlowerId, t: FlowerId)
    requires WellFormed(a) && WellFormed(b) && WellFormed(d) && StemsAndKinds(a, b) && StemsAndKinds(b, d)
    requires f < |a.flowers| && b.flowers[f].parent.Some? && b.flowers[f].parent.value < |b.flowers|
    requires b.flowers[b.flowers[f].parent.value].parent == Some(gp) && gp < |a.flowers| && Root(d, gp) == Some(t)
    ensures Root(a, f) == Some(t)
  {
    var g := b.flowers[f].parent.value;
    StemsAndKindsTrans(a, b, d);
    WalkRoot(a, d, f, g, gp, t);
  }

  /** The walk climbs parent links the processing never changes, so it ends at the root. */
  lemma WalkRoot(a: Arena, d: Arena, f: FlowerId, g: FlowerId, gp: FlowerId, t: FlowerId)
    requires WellFormed(a) && WellFormed(d) && StemsAndKinds(a, d) && f < |a.flowers|
    requires a.flowers[f].parent == Some(g) && g < |a.flowers| && a.flowers[g].parent == Some(gp)
    requires gp < |a.flowers| && Root(d, gp) == Some(t)
    ensures Root(a, f) == Some(t)
  {
    RootOfChild(a, f);
    RootOfChild(a, g);
    RootFrame(a, d, gp);
  }

  /** Where a walk ends: the arena, the root it stopped at, and every edge it may have flipped. */
  datatype Walked = Walked(arena: Arena, root: FlowerId, flipped: seq<EdgeId>)

  /**
   * The walk of Source/Actions.cpp:561-601 from the free flower `f` with outgoing edge
   * `out`: swap the path of `f`; stop at a parentless flower; otherwise climb one step
   * (see `Climb`) and go on from the parent of `f`'s parent.  `flipped` lists, in order,
   * `f`'s path and each step's touched edges.  `None` when the source dereferences null
   * (no pairing edge at an odd flower, or one without a parent), a path holds a null
   * edge, or the walk outruns `fuel`.
   */
  function Walk(a: Arena, f: FlowerId, out: EdgeId, fuel: nat): (r: Option<Walked>)
    requires WellFormed(a) && f < |a.flowers| && out < |a.edges|
    ensures r.Some? ==> && WellFormed(r.value.arena) && StemsAndKinds(a, r.value.arena) && r.value.root < |a.flowers|
                        && r.value.arena.flowers[r.value.root].parent.None? && Root(a, f) == Some(r.value.root)
                        && FlipsWithin(a.edges, r.value.arena.edges, r.value.flipped)
    decreases fuel
  {
    match Alternate(a, f, out)
    case None => None
    case Some(p) =>
      var b := p.0;
      AlternateSwaps(a, f, out);
      if b.flowers[f].parent.None? then
        RootOfParentless(a, f);
        Some(Walked(b, f, p.1))
      else if fuel == 0 then None
      else
        match Climb(b, f, out)
        case None => None
        case Some(h) =>
          StemsAndKindsTrans(a, b, h.arena);
          ClimbEffect(b, f, out);
          FlipsWithinTrans(a.edges, b.edges, h.arena.edges, p.1, Touched(h));
          match Walk(h.arena, h.next, h.out, fuel - 1)
          case None => None
          case Some(w) =>
            ClimbRoot(a, b, h.arena, f, h.next, w.root);
            StemsAndKindsTrans(a, h.arena, w.arena);
            FlipsWithinTrans(a.edges, h.arena.edges, w.arena.edges, p.1 + Touched(h), w.flipped);
            Some(Walked(w.arena, w.root, p.1 + Touched(h) + w.flipped))
  }

  /**
   * The walk starts with the path of `f` itself, and after it each step's touched edges
   * when `f` has a parent.
   */
  lemma WalkBegins(a: Arena, f: FlowerId, out: EdgeId, fuel: nat)
    requires WellFormed(a) && f < |a.flowers| && out < |a.edges| && Walk(a, f, out, fuel).Some?
    ensures Preprocess(a, f, out).Some?
    ensures var w := Walk(a, f, out, fuel).value; var p := Alternate(a, f, out).value;
            && p.1 == Preprocess(a, f, out).value.1 && p.1 <= w.flipped
            && (p.0.flowers[f].parent.None? ==> w.flipped == p.1 && w.root == f)
            && (p.0.flowers[f].parent.Some? ==>
                  Climb(p.0, f, out).Some? && p.1 + Touched(Climb(p.0, f, out).value) <= w.flipped)
  {
    AlternateSwaps(a, f, out);
    var p := Alternate(a, f, out).value;
    var w := Walk(a, f, out, fuel).value;
    if p.0.flowers[f].parent.Some? {
      var h := Climb(p.0, f, out).value;
      var w2 := Walk(h.arena, h.next, h.out, fuel - 1).value;
      assert w.flipped == p.1 + Touched(h) + w2.flipped;
    }
  }

  /** One iteration of the loop over the two free flowers. */
  datatype Collapsed = Collapsed(arena: Arena, root: FlowerId, settled: seq<FlowerId>, flipped: seq<EdgeId>)

  /** Source/Actions.cpp:557-603 for the free flower `f`: walk to the root, then dismantle that tree. */
  function CollapseHalf(a: Arena, f: FlowerId, out: EdgeId): (r: Option<Collapsed>)
    requires WellFormed(a) && f < |a.flowers| && out < |a.edges|
    ensures r.Some? ==> var h := r.value;
              && WellFormed(h.arena) && |h.arena.flowers| == |a.flowers| && |h.arena.edges| == |a.edges|
  {
    match Walk(a, f, out, |a.flowers|)
    case None => None
    case Some(w) =>
      match Dismantle(w.arena, w.root, |a.flowers| + 1)
      case None => None
      case Some(d) => Some(Collapsed(d.0, w.root, d.1, w.flipped))
  }

  /**
   * A half changes edges in their kind only, changes the kind of no edge off its flipped
   * list, and moves full edges only between the blocking and the pairing kind.
   */
  lemma CollapseHalfFlips(a: Arena, f: FlowerId, out: EdgeId)
    requires WellFormed(a) && f < |a.flowers| && out < |a.edges| && CollapseHalf(a, f, out).Some?
    ensures var h := CollapseHalf(a, f, out).value;
            EdgeKindsOnly(a, h.arena) && FlipsWithin(a.edges, h.arena.edges, h.flipped)
  {
    var w := Walk(a, f, out, |a.flowers|).value;
    var d := Dismantle(w.arena, w.root, |a.flowers| + 1).value;
    assert d.0.edges == w.arena.edges;
  }

  /**
   * `executeCollapseTree`: the tight edge `e` becomes a pairing edge, then each of its
   * two free flowers `ff` is walked to its root and its tree dismantled.  The source
   * reads exactly two free flowers (the debug build checks it).  Which edges it
   * changes is stated by `CollapseTreeFlips`.
   */
  function CollapseTree(a: Arena, e: EdgeId, ff: seq<FlowerId>): (r: Option<Arena>)
    requires WellFormed(a) && e < |a.edges| && |ff| == 2 && AllBelow(ff, |a.flowers|)
    ensures r.Some? ==> WellFormed(r.value) && |r.value.flowers| == |a.flowers| && |r.value.edges| == |a.edges|
  {
    var a1 := SetEdgeKind(a, e, FullInPairing);
    match CollapseHalf(a1, ff[0], e)
    case None => None
    case Some(h0) =>
      match CollapseHalf(h0.arena, ff[1], e)
      case None => None
      case Some(h1) => Some(h1.arena)
  }

  /** `b` keeps every edge of `a` but for its kind: weights and endpoints never change. */
  predicate EdgeKindsOnly(a: Arena, b: Arena) {
    && |b.edges| == |a.edges|
    && forall j :: 0 <= j < |a.edges| ==> b.edges[j] == a.edges[j].(kind := b.edges[j].kind)
  }

  lemma EdgeKindsOnlyTrans(a: Arena, b: Arena, c: Arena)
    requires EdgeKindsOnly(a, b) && EdgeKindsOnly(b, c)
    ensures EdgeKindsOnly(a, c)
  {
  }

  /**
   * What a collapse does to the edges, given the edges `ts` its walks flipped: edges change
   * in their kind only; the tight edge `e` ends full; any other edge keeps its kind unless
   * `ts` lists it; and no other edge turns from regular to full or back.
   */
  predicate CollapsedEdges(a: Arena, b: Arena, e: EdgeId, ts: seq<EdgeId>) {
    && EdgeKindsOnly(a, b) && e < |b.edges| && b.edges[e].IsFull()
    && (forall i :: 0 <= i < |ts| ==> ts[i] < |a.edges|)
    && (forall j :: 0 <= j < |a.edges| && j != e && j !in ts ==> b.edges[j].kind == a.edges[j].kind)
    && (forall j :: 0 <= j < |a.edges| && j != e ==> (b.edges[j].IsFull() <==> a.edges[j].IsFull()))
  }

  /** Making `e` pairing and then flipping within `ts` gives the collapse's edge effect. */
  lemma TightThenFlips(a: Arena, a1: Arena, b: Arena, e: EdgeId, ts: seq<EdgeId>)
    requires e < |a.edges| && |a1.edges| == |a.edges| && a1.edges[e] == a.edges[e].(kind := FullInPairing)
    requires forall j :: 0 <= j < |a.edges| && j != e ==> a1.edges[j] == a.edges[j]
    requires EdgeKindsOnly(a1, b) && FlipsWithin(a1.edges, b.edges, ts)
    ensures CollapsedEdges(a, b, e, ts)
  {
    assert EdgeKindsOnly(a, a1);
    EdgeKindsOnlyTrans(a, a1, b);
  }

  /**
   * Which edges a collapse changes: the edge effect `CollapsedEdges`, with the edges the
   * two halves' walks flipped.
   */
  lemma CollapseTreeFlips(a: Arena, e: EdgeId, ff: seq<FlowerId>)
    requires WellFormed(a) && e < |a.edges| && |ff| == 2 && AllBelow(ff, |a.flowers|)
    requires CollapseTree(a, e, ff).Some?
    ensures var a1 := SetEdgeKind(a, e, FullInPairing);
            && CollapseHalf(a1, ff[0], e).Some?
            && var h0 := CollapseHalf(a1, ff[0], e).value;
            && |h0.arena.flowers| == |a.flowers| && CollapseHalf(h0.arena, ff[1], e).Some?
            && var h1 := CollapseHalf(h0.arena, ff[1], e).value;
            && CollapseTree(a, e, ff) == Some(h1.arena)
            && CollapsedEdges(a, h1.arena, e, h0.flipped + h1.flipped)
  {
    var a1 := SetEdgeKind(a, e, FullInPairing);
    var h0 := CollapseHalf(a1, ff[0], e).value;
    var h1 := CollapseHalf(h0.arena, ff[1], e).value;
    assert CollapseTree(a, e, ff) == Some(h1.arena);
    CollapseHalfFlips(a1, ff[0], e);
    CollapseHalfFlips(h0.arena, ff[1], e);
    EdgeKindsOnlyTrans(a1, h0.arena, h1.arena);
    FlipsWithinTrans(a1.edges, h0.arena.edges, h1.arena.edges, h0.flipped, h1.flipped);
    TightThenFlips(a, a1, h1.arena, e, h0.flipped + h1.flipped);
  }

  /**
   * One half ends at the root of its free flower, settles exactly a child-closed set of
   * flowers holding that root, and changes nothing else about the flowers but stems.
   */
  lemma CollapseHalfFacts(a: Arena, f: FlowerId, out: EdgeId)
    requires WellFormed(a) && f < |a.flowers| && out < |a.edges| && CollapseHalf(a, f, out).Some?
    ensures var h := CollapseHalf(a, f, out).value;
            && Root(a, f) == Some(h.root) && h.root in h.settled && AllBelow(h.settled, |a.flowers|)
            && (forall x :: 0 <= x < |a.flowers| ==>
                  h.arena.flowers[x] == if x in h.settled then Settle(a.flowers[x]).(stem := h.arena.flowers[x].stem)
                                        else a.flowers[x].(stem := h.arena.flowers[x].stem))
            && ChildClosed(a, h.settled)
  {
    var w := Walk(a, f, out, |a.flowers|).value;
    var d := Dismantle(w.arena, w.root, |a.flowers| + 1).value;
    StemsThenSettled(a, w.arena, d.0, d.1);
  }

  /** Restemming and then settling `vs` leaves every flower as the two steps make it. */
  lemma StemsThenSettled(a: Arena, w: Arena, d: Arena, vs: seq<FlowerId>)
    requires StemsAndKinds(a, w) && SettledAs(w, d, vs) && ChildClosed(w, vs)
    ensures forall x :: 0 <= x < |a.flowers| ==>
              d.flowers[x] == if x in vs then Settle(a.flowers[x]).(stem := d.flowers[x].stem)
                              else a.flowers[x].(stem := d.flowers[x].stem)
    ensures ChildClosed(a, vs)
  {
    assert forall x :: 0 <= x < |a.flowers| ==> w.flowers[x].children == a.flowers[x].children;
  }

  /** A half never unsettles a flower: the walk keeps kinds and links, a dismantle only settles. */
  lemma CollapseHalfKeepsSettled(a: Arena, f: FlowerId, out: EdgeId, x: FlowerId)
    requires WellFormed(a) && f < |a.flowers| && out < |a.edges| && CollapseHalf(a, f, out).Some?
    requires x < |a.flowers| && Settled(a.flowers[x])
    ensures Settled(CollapseHalf(a, f, out).value.arena.flowers[x])
  {
    CollapseHalfFacts(a, f, out);
  }

  /** After one half, every flower of the tree under the root it reached is settled. */
  lemma CollapseHalfSettles(a: Arena, f: FlowerId, out: EdgeId, x: FlowerId, k: nat)
    requires WellFormed(a) && f < |a.flowers| && out < |a.edges| && CollapseHalf(a, f, out).Some?
    requires x < |a.flowers| && Below(a, CollapseHalf(a, f, out).value.root, x, k)
    ensures Settled(CollapseHalf(a, f, out).value.arena.flowers[x])
  {
    var h := CollapseHalf(a, f, out).value;
    CollapseHalfFacts(a, f, out);
    ClosedBelow(a, h.settled, h.root, x, k);
  }

  /**
   * A collapse settles the whole first tree: the root of the first free flower and every
   * flower below it end as dumbbell members without parent or children.
   */
  lemma CollapseSettlesFirstTree(a: Arena, e: EdgeId, ff: seq<FlowerId>, x: FlowerId, k: nat)
    requires WellFormed(a) && e < |a.edges| && |ff| == 2 && AllBelow(ff, |a.flowers|)
    requires CollapseTree(a, e, ff).Some? && x < |a.flowers|
    ensures Root(a, ff[0]).Some?
    ensures Below(a, Root(a, ff[0]).value, x, k) ==> Settled(CollapseTree(a, e, ff).value.flowers[x])
  {
    var a1 := SetEdgeKind(a, e, FullInPairing);
    var h0 := CollapseHalf(a1, ff[0], e).value;
    CollapseHalfFacts(a1, ff[0], e);
    RootFrame(a, a1, ff[0]);
    if Below(a, h0.root, x, k) {
      BelowFrame(a, a1, h0.root, x, k);
      CollapseHalfSettles(a1, ff[0], e, x, k);
      assert CollapseTree(a, e, ff) == Some(CollapseHalf(h0.arena, ff[1], e).value.arena);
      CollapseHalfKeepsSettled(h0.arena, ff[1], e, x);
    }
  }

  /** Reachability depends on child links only. */
  lemma {:induction false} BelowFrame(a: Arena, b: Arena, t: FlowerId, x: FlowerId, k: nat)
    requires |a.flowers| == |b.flowers|
    requires forall y :: 0 <= y < |a.flowers| ==> a.flowers[y].children == b.flowers[y].children
    requires Below(a, t, x, k)
    ensures Below(b, t, x, k)
    decreases k
  {
    if x != t {
      var c :| c in a.flowers[t].children && Below(a, c, x, k - 1);
      BelowFrame(a, b, c, x, k - 1);
    }
  }

  /**
   * In the second half the tree under the second root is settled in the same way, on the
   * arena the first half left.
   */
  lemma CollapseSettlesSecondTree(a: Arena, e: EdgeId, ff: seq<FlowerId>, x: FlowerId, k: nat)
    requires WellFormed(a) && e < |a.edges| && |ff| == 2 && AllBelow(ff, |a.flowers|)
    requires CollapseTree(a, e, ff).Some? && x < |a.flowers|
    ensures var h0 := CollapseHalf(SetEdgeKind(a, e, FullInPairing), ff[0], e).value.arena;
            && |h0.flowers| == |a.flowers| && Root(h0, ff[1]).Some?
            && (Below(h0, Root(h0, ff[1]).value, x, k) ==> Settled(CollapseTree(a, e, ff).value.flowers[x]))
  {
    var a1 := SetEdgeKind(a, e, FullInPairing);
    var h0 := CollapseHalf(a1, ff[0], e).value;
    var h1 := CollapseHalf(h0.arena, ff[1], e).value;
    assert CollapseTree(a, e, ff) == Some(h1.arena);
    CollapseHalfFacts(h0.arena, ff[1], e);
    if Below(h0.arena, h1.root, x, k) {
      CollapseHalfSettles(h0.arena, ff[1], e, x, k);
    }
  }
}
