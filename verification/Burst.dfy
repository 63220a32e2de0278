/**
 * `executeBurstFlower` (Source/Actions.cpp:226-331): an odd blossom whose power has
 * dropped to zero is opened.  The arc of its cycle from the subflower touching the
 * parent edge to the stem subflower takes the blossom's place in the tree, with
 * alternating kinds; the rest of the cycle becomes dumbbells.
 */
module Burst {
  import opened Wrappers
  import opened Seqs
  import opened Forest
  import opened Reorder
  import opened EdgeOps

  /**
   * The subflower loop of Source/Actions.cpp:246-251: the first subflower the parent
   * edge touches, or the last subflower when it touches none; `None` for a blossom
   * without subflowers (the source keeps null).
   */
  function UpperSub(subs: seq<FlowerId>, efs: seq<FlowerId>): (r: Option<FlowerId>)
    ensures r.Some? <==> subs != []
    ensures r.Some? ==> exists i :: 0 <= i < |subs| && subs[i] == r.value
                          && (forall j :: 0 <= j < i ==> subs[j] !in efs)
                          && (subs[i] in efs || i == |subs| - 1)
  {
    if subs == [] then None
    else if subs[0] in efs || |subs| == 1 then Some(subs[0])
    else
      var r := UpperSub(subs[1..], efs);
      assert exists i :: 1 <= i < |subs| && subs[i] == r.value
               && (forall j :: 1 <= j < i ==> subs[j] !in efs)
               && (subs[i] in efs || i == |subs| - 1);
      r
  }

  /** The flowers a burst works with, as the source finds them before changing anything. */
  datatype BurstPlan = BurstPlan(
    parent: FlowerId,        // the blossom's parent
    upper: FlowerId,         // the subflower on the parent edge
    lower: FlowerId,         // the stem subflower
    child: FlowerId,         // the blossom's first child
    subs: seq<FlowerId>,     // the subflowers after `reorderFlowers`
    top: nat)                // the position of `lower` in `subs`

  /**
   * The look-ups of Source/Actions.cpp:228-276.  `None` when the source would
   * dereference null: no parent, no full-blocking parent edge reaching the blossom, no
   * subflowers, no stem, or no child.
   */
  function PlanBurst(a: Arena, g: FlowerId): (r: Option<BurstPlan>)
    requires WellFormed(a) && g < |a.flowers|
    ensures var fl := a.flowers[g];
            r.Some? <==> && fl.parent.Some?
                         && FindEdge(a, a.flowers[fl.parent.value].edges, FullBlocking, Some(g)).Some?
                         && fl.subFlowers != [] && fl.stem.Some? && fl.children != []
    ensures r.Some? ==> var fl, pl := a.flowers[g], r.value;
              && pl.parent == fl.parent.value && pl.lower == fl.stem.value && pl.child == fl.children[0]
              && pl.upper in fl.subFlowers && pl.lower in fl.subFlowers
              && |pl.subs| == |fl.subFlowers| && pl.top < |pl.subs|
              && pl.subs[0] == pl.upper && pl.subs[pl.top] == pl.lower
              && multiset(pl.subs) == multiset(fl.subFlowers)
              && (|pl.subs| % 2 == 1 ==> pl.top % 2 == 0)
              && (Distinct(fl.subFlowers) ==> Distinct(pl.subs))
    ensures r.Some? ==> PlanFits(a, r.value) && AllBelow(r.value.subs, g)
    ensures r.Some? ==> var fl, pl := a.flowers[g], r.value;
              var pes := a.flowers[pl.parent].edges;
              var pe := pes[FindEdge(a, pes, FullBlocking, Some(g)).value];
              UpperSub(fl.subFlowers, a.edges[pe].flowers) == Some(pl.upper)
    ensures r.Some? ==> var subs, pl := a.flowers[g].subFlowers, r.value;
              var s, e := LastIndex(subs, pl.upper), LastIndex(subs, pl.lower);
              && s < |subs| && e < |subs|
              && pl.subs == if SegmentSize(|subs|, s, e) % 2 == 1 then ForwardWalk(subs, s) else BackwardWalk(subs, s)
  {
    var fl := a.flowers[g];
    if fl.parent.None? then None
    else
      var p := fl.parent.value;
      var pes := a.flowers[p].edges;
      match FindEdge(a, pes, FullBlocking, Some(g))
      case None => None
      case Some(k) =>
        match UpperSub(fl.subFlowers, a.edges[pes[k]].flowers)
        case None => None
        case Some(upper) =>
          if fl.stem.None? || fl.children == [] then None
          else
            var lower := fl.stem.value;
            var re := ReorderFlowers(fl.subFlowers, LastIndex(fl.subFlowers, upper), LastIndex(fl.subFlowers, lower));
            assert Distinct(fl.subFlowers) ==> Distinct(re.0) by {
              if Distinct(fl.subFlowers) {
                ReorderDistinct(fl.subFlowers, LastIndex(fl.subFlowers, upper), LastIndex(fl.subFlowers, lower));
              }
            }
            var s, e := LastIndex(fl.subFlowers, upper), LastIndex(fl.subFlowers, lower);
            assert re.0 == if SegmentSize(|fl.subFlowers|, s, e) % 2 == 1 then ForwardWalk(fl.subFlowers, s)
                           else BackwardWalk(fl.subFlowers, s);
            AllBelowPermutation(re.0, fl.subFlowers, g);
            assert fl.children[0] in fl.children;
            Some(BurstPlan(p, upper, lower, fl.children[0], re.0, re.1))
  }

  /** Reordering a cycle of distinct subflowers lists each of them once. */
  lemma ReorderDistinct(xs: seq<FlowerId>, s: nat, e: nat)
    requires s < |xs| && e < |xs| && Distinct(xs)
    ensures Distinct(ReorderFlowers(xs, s, e).0)
  {
    if SegmentSize(|xs|, s, e) % 2 == 1 {
      WalkDistinct(xs, ForwardWalk(xs, s), s, true);
    } else {
      WalkDistinct(xs, BackwardWalk(xs, s), s, false);
    }
  }

  /** A walk round the cycle from `s`, either way, meets each position once. */
  lemma WalkDistinct(xs: seq<FlowerId>, ys: seq<FlowerId>, s: nat, forward: bool)
    requires s < |xs| && Distinct(xs)
    requires ys == if forward then ForwardWalk(xs, s) else BackwardWalk(xs, s)
    ensures Distinct(ys)
  {
    var n := |xs|;
    forall i, j | 0 <= i < j < n
      ensures ys[i] != ys[j]
    {
      if forward {
        assert Forward(n, s, i) != Forward(n, s, j);
      } else {
        assert Backward(n, s, i) != Backward(n, s, j);
      }
    }
  }

  /** Every id the plan holds is in range. */
  predicate PlanFits(a: Arena, pl: BurstPlan) {
    && pl.parent < |a.flowers| && pl.upper < |a.flowers| && pl.lower < |a.flowers| && pl.child < |a.flowers|
    && AllBelow(pl.subs, |a.flowers|) && pl.top < |pl.subs|
  }

  /**
   * Source/Actions.cpp:281-292: the upper subflower replaces the blossom `g` among the
   * children of `p` and takes `p` as its parent.
   */
  function Adopt(a: Arena, g: FlowerId, p: FlowerId, upper: FlowerId): (r: Arena)
    requires WellFormed(a) && p < |a.flowers| && upper < |a.flowers|
    ensures WellFormed(r) && |r.flowers| == |a.flowers| && r.edges == a.edges
    ensures r.flowers[upper].parent == Some(p)
    ensures p != upper ==> r.flowers[p] == a.flowers[p].(children := RemoveAll<FlowerId>(a.flowers[p].children, g) + [upper])
    ensures p != upper ==> r.flowers[upper] == a.flowers[upper].(parent := Some(p))
    ensures forall x :: 0 <= x < |a.flowers| && x != p && x != upper ==> r.flowers[x] == a.flowers[x]
    ensures forall x :: 0 <= x < |a.flowers| ==> r.flowers[x].kind == a.flowers[x].kind && r.flowers[x].edges == a.flowers[x].edges
  {
    var cs := RemoveAll<FlowerId>(a.flowers[p].children, g) + [upper];
    assert AllBelow(cs, |a.flowers|) by {
      forall k | 0 <= k < |cs| ensures cs[k] < |a.flowers| {
        if k < |cs| - 1 { assert cs[k] in a.flowers[p].children; }
      }
    }
    SetParent(SetChildren(a, p, cs), upper, Some(p))
  }

  /**
   * Source/Actions.cpp:295-303: the blossom's child takes the lower subflower as its
   * parent and joins that subflower's children.
   */
  function HangChild(a: Arena, lower: FlowerId, child: FlowerId): (r: Arena)
    requires WellFormed(a) && lower < |a.flowers| && child < |a.flowers|
    ensures WellFormed(r) && |r.flowers| == |a.flowers| && r.edges == a.edges
    ensures r.flowers[lower].children != []
    ensures lower != child ==> r.flowers[lower] == a.flowers[lower].(children := a.flowers[lower].children + [child])
    ensures lower != child ==> r.flowers[child] == a.flowers[child].(parent := Some(lower))
    ensures forall x :: 0 <= x < |a.flowers| && x != lower && x != child ==> r.flowers[x] == a.flowers[x]
    ensures forall x :: 0 <= x < |a.flowers| ==> r.flowers[x].kind == a.flowers[x].kind && r.flowers[x].edges == a.flowers[x].edges
    ensures forall x :: 0 <= x < |a.flowers| && a.flowers[x].parent.Some? ==> r.flowers[x].parent.Some?
  {
    var b := SetParent(a, child, Some(lower));
    SetChildren(b, lower, b.flowers[lower].children + [child])
  }

  /** Source/Actions.cpp:281-303: both replacements of the blossom in the tree. */
  function Splice(a: Arena, g: FlowerId, pl: BurstPlan): (r: Arena)
    requires WellFormed(a) && PlanFits(a, pl)
    ensures WellFormed(r) && |r.flowers| == |a.flowers| && r.edges == a.edges
    ensures r.flowers[pl.upper].parent.Some? && r.flowers[pl.lower].children != []
    ensures forall x :: 0 <= x < |a.flowers| ==> r.flowers[x].kind == a.flowers[x].kind && r.flowers[x].edges == a.flowers[x].edges
  {
    HangChild(Adopt(a, g, pl.parent, pl.upper), pl.lower, pl.child)
  }

  /** The kind the segment loop gives position `i`: odd at even positions, even at odd ones. */
  function SegmentKind(i: nat): FlowerKind {
    if i % 2 == 0 then OddInTree else EvenInTree
  }

  /**
   * One pass of the segment loop (Source/Actions.cpp:306-316) on the record `fl` at
   * position `i`: a missing parent becomes the previous subflower, missing children the
   * next one.  `None` when that neighbour would be read out of range.
   */
  function SegmentRecord(fl: Flower, subs: seq<FlowerId>, i: nat): (r: Option<Flower>)
    requires i < |subs|
    ensures r.Some? <==> (fl.parent.Some? || i > 0) && (fl.children != [] || i + 1 < |subs|)
    ensures r.Some? ==> && r.value.kind == SegmentKind(i)
                        && r.value.parent == (if fl.parent.Some? then fl.parent else Some(subs[i - 1]))
                        && r.value.children == (if fl.children != [] then fl.children else [subs[i + 1]])
                        && r.value.(kind := fl.kind, parent := fl.parent, children := fl.children) == fl
  {
    if fl.parent.None? && i == 0 then None
    else if fl.children == [] && i + 1 >= |subs| then None
    else
      var parent := if fl.parent.Some? then fl.parent else Some(subs[i - 1]);
      var children := if fl.children != [] then fl.children else [subs[i + 1]];
      Some(fl.(kind := SegmentKind(i), parent := parent, children := children))
  }

  /**
   * What the segment loop from `i` through `hi` keeps: the arena's shape and edge lists,
   * every flower outside the segment, and every parent or child link already present.
   */
  predicate FoldKept(a: Arena, c: Arena, subs: seq<FlowerId>, i: nat, hi: nat)
    requires hi < |subs| && i <= hi + 1
  {
    && WellFormed(c) && |c.flowers| == |a.flowers| && c.edges == a.edges
    && (forall x :: 0 <= x < |a.flowers| ==> c.flowers[x].edges == a.flowers[x].edges)
    && (forall x :: 0 <= x < |a.flowers| && x !in subs[i..hi + 1] ==> c.flowers[x] == a.flowers[x])
    && (forall x :: 0 <= x < |a.flowers| ==>
          (a.flowers[x].parent.Some? ==> c.flowers[x].parent.Some?)
          && (a.flowers[x].children != [] ==> c.flowers[x].children != []))
  }

  /** The segment loop from position `i` through `hi`. */
  function SegmentFold(a: Arena, subs: seq<FlowerId>, i: nat, hi: nat): (r: Option<Arena>)
    requires WellFormed(a) && AllBelow(subs, |a.flowers|) && hi < |subs| && i <= hi + 1
    ensures r.Some? ==> FoldKept(a, r.value, subs, i, hi)
    ensures (i > 0 || a.flowers[subs[0]].parent.Some?) && (hi + 1 < |subs| || a.flowers[subs[hi]].children != [])
            ==> r.Some?
    decreases hi + 1 - i
  {
    if i > hi then
      assert subs[i..hi + 1] == [];
      Some(a)
    else
      match SegmentStep(a, subs, i)
      case None => None
      case Some(b) =>
        var r := SegmentFold(b, subs, i + 1, hi);
        if r.Some? then FoldKeptStep(a, b, r.value, subs, i, hi); r else r
  }

  /** One more pass in front keeps what the rest of the loop keeps. */
  lemma FoldKeptStep(a: Arena, b: Arena, c: Arena, subs: seq<FlowerId>, i: nat, hi: nat)
    requires WellFormed(a) && AllBelow(subs, |a.flowers|) && hi < |subs| && i <= hi
    requires SegmentStep(a, subs, i) == Some(b) && FoldKept(b, c, subs, i + 1, hi)
    ensures FoldKept(a, c, subs, i, hi)
  {
    assert subs[i..hi + 1] == [subs[i]] + subs[i + 1..hi + 1];
  }

  /** One pass of the segment loop on the arena: position `i` gets its new record. */
  function SegmentStep(a: Arena, subs: seq<FlowerId>, i: nat): (r: Option<Arena>)
    requires WellFormed(a) && AllBelow(subs, |a.flowers|) && i < |subs|
    ensures r.Some? <==> SegmentRecord(a.flowers[subs[i]], subs, i).Some?
    ensures r.Some? ==> && WellFormed(r.value) && |r.value.flowers| == |a.flowers| && r.value.edges == a.edges
                        && r.value.flowers[subs[i]] == SegmentRecord(a.flowers[subs[i]], subs, i).value
                        && forall x :: 0 <= x < |a.flowers| && x != subs[i] ==> r.value.flowers[x] == a.flowers[x]
  {
    assert subs[i] < |a.flowers|;
    match SegmentRecord(a.flowers[subs[i]], subs, i)
    case None => None
    case Some(fl) =>
      assert AllBelow(fl.children, |a.flowers|) by {
        if a.flowers[subs[i]].children == [] { assert subs[i + 1] < |a.flowers|; }
      }
      assert fl.parent.Some? ==> fl.parent.value < |a.flowers| by {
        if a.flowers[subs[i]].parent.None? { assert subs[i - 1] < |a.flowers|; }
      }
      Some(SetFlower(a, subs[i], fl))
  }

  /** With distinct subflowers, each position of the segment ends with the record its pass gave it. */
  lemma {:induction false} SegmentFoldEffect(a: Arena, subs: seq<FlowerId>, i: nat, hi: nat)
    requires WellFormed(a) && AllBelow(subs, |a.flowers|) && hi < |subs| && i <= hi + 1
    requires Distinct(subs) && SegmentFold(a, subs, i, hi).Some?
    ensures forall j :: i <= j <= hi ==>
              && SegmentRecord(a.flowers[subs[j]], subs, j).Some?
              && SegmentFold(a, subs, i, hi).value.flowers[subs[j]] == SegmentRecord(a.flowers[subs[j]], subs, j).value
    decreases hi + 1 - i
  {
    if i <= hi {
      var b := SegmentStep(a, subs, i).value;
      var c := SegmentFold(b, subs, i + 1, hi).value;
      assert SegmentFold(a, subs, i, hi) == Some(c);
      SegmentFoldEffect(b, subs, i + 1, hi);
      assert subs[i] !in subs[i + 1..hi + 1];
      assert FoldKept(b, c, subs, i + 1, hi);
      assert c.flowers[subs[i]] == b.flowers[subs[i]];
      forall j | i < j <= hi
        ensures b.flowers[subs[j]] == a.flowers[subs[j]]
      {
        assert subs[j] != subs[i];
      }
    }
  }

  /** Source/Actions.cpp:319-321: every subflower from position `i` on becomes a dumbbell flower. */
  function MarkDumbbell(a: Arena, subs: seq<FlowerId>, i: nat): (r: Arena)
    requires WellFormed(a) && AllBelow(subs, |a.flowers|) && i <= |subs|
    ensures WellFormed(r) && |r.flowers| == |a.flowers| && r.edges == a.edges
    ensures forall x :: 0 <= x < |a.flowers| ==>
              r.flowers[x] == if x in subs[i..] then a.flowers[x].(kind := InDumbbell) else a.flowers[x]
    decreases |subs| - i
  {
    if i == |subs| then
      assert subs[i..] == [];
      a
    else
      assert subs[i] < |a.flowers|;
      assert subs[i..] == [subs[i]] + subs[i + 1..];
      MarkDumbbell(SetKind(a, subs[i], InDumbbell), subs, i + 1)
  }

  /** Source/Actions.cpp:327-330: the blossom leaves the flower lists of its edges `es`. */
  function DetachFrom(a: Arena, es: seq<EdgeId>, g: FlowerId): (r: Arena)
    requires WellFormed(a) && AllBelow(es, |a.edges|)
    ensures WellFormed(r) && r.flowers == a.flowers && |r.edges| == |a.edges|
    ensures forall j :: 0 <= j < |a.edges| ==>
              r.edges[j] == if j in es then a.edges[j].(flowers := RemoveAll<FlowerId>(a.edges[j].flowers, g)) else a.edges[j]
    decreases |es|
  {
    if es == [] then a
    else
      var j := es[0];
      assert es == [j] + es[1..];
      var fs := RemoveAll<FlowerId>(a.edges[j].flowers, g);
      assert AllBelow(fs, |a.flowers|) by {
        forall k | 0 <= k < |fs| ensures fs[k] < |a.flowers| {
          assert fs[k] in a.edges[j].flowers;
        }
      }
      DetachFrom(SetEdgeFlowers(a, j, fs), es[1..], g)
  }

  /**
   * The kind edge `j` has after the two calls of `setBlockingEdgeToRegular`
   * (Source/Actions.cpp:323-325): regular when it is a full-blocking edge of the upper
   * subflower reaching the last subflower, or of the lower subflower reaching the one
   * after it on the cycle; its old kind otherwise.
   */
  function ClearedKind(a: Arena, pl: BurstPlan, j: EdgeId): EdgeKind
    requires PlanFits(a, pl) && j < |a.edges|
  {
    var n := |pl.subs|;
    if || (j in a.flowers[pl.upper].edges && EdgeMatches(a, j, FullBlocking, Some(pl.subs[n - 1])))
       || (j in a.flowers[pl.lower].edges && EdgeMatches(a, j, FullBlocking, Some(pl.subs[(pl.top + 1) % n])))
    then Regular
    else a.edges[j].kind
  }

  /**
   * Source/Actions.cpp:318-330 after the segment loop: the dumbbell loop, the two
   * calls of `setBlockingEdgeToRegular`, and the removal of the blossom from its edges.
   * Flowers change only in kind, edges only as `ClearedKind` and the removal say.
   */
  function Finish(c: Arena, g: FlowerId, pl: BurstPlan): (r: Arena)
    requires WellFormed(c) && PlanFits(c, pl) && g < |c.flowers|
    ensures WellFormed(r) && |r.flowers| == |c.flowers| && |r.edges| == |c.edges|
    ensures forall x :: 0 <= x < |c.flowers| ==>
              r.flowers[x] == if x in pl.subs[pl.top + 1..] then c.flowers[x].(kind := InDumbbell) else c.flowers[x]
    ensures forall j :: 0 <= j < |c.edges| ==>
              r.edges[j] == c.edges[j].(kind := ClearedKind(c, pl, j),
                                        flowers := if j in c.flowers[g].edges then RemoveAll<FlowerId>(c.edges[j].flowers, g)
                                                   else c.edges[j].flowers)
  {
    var d := MarkDumbbell(c, pl.subs, pl.top + 1);
    var e := ClearBoth(d, pl);
    forall j | 0 <= j < |c.edges|
      ensures ClearedKind(d, pl, j) == ClearedKind(c, pl, j)
    {
      ClearedKindFrame(c, d, pl, j);
    }
    DetachFrom(e, c.flowers[g].edges, g)
  }

  /** Both calls of `setBlockingEdgeToRegular`, Source/Actions.cpp:323-325. */
  function ClearBoth(a: Arena, pl: BurstPlan): (r: Arena)
    requires WellFormed(a) && PlanFits(a, pl)
    ensures WellFormed(r) && r.flowers == a.flowers && |r.edges| == |a.edges|
    ensures forall j :: 0 <= j < |a.edges| ==> r.edges[j] == a.edges[j].(kind := ClearedKind(a, pl, j))
  {
    var n := |pl.subs|;
    var e1 := SetBlockingEdgeToRegular(a, pl.upper, pl.subs[n - 1]);
    SetBlockingEdgeToRegular(e1, pl.lower, pl.subs[(pl.top + 1) % n])
  }

  /** The cleared kinds read the edges and the flowers' edge lists only. */
  lemma ClearedKindFrame(a: Arena, b: Arena, pl: BurstPlan, j: EdgeId)
    requires PlanFits(a, pl) && |b.flowers| == |a.flowers| && a.edges == b.edges && j < |a.edges|
    requires forall x :: 0 <= x < |a.flowers| ==> b.flowers[x].edges == a.flowers[x].edges
    ensures ClearedKind(a, pl, j) == ClearedKind(b, pl, j)
  {
    assert b.flowers[pl.upper].edges == a.flowers[pl.upper].edges;
    assert b.flowers[pl.lower].edges == a.flowers[pl.lower].edges;
  }

  /**
   * `executeBurstFlower` on the blossom `g`.  It fails exactly when one of the
   * look-ups fails; the segment loop itself never reads out of range, because the
   * upper subflower has just received a parent and the lower one a child.
   */
  function BurstFlower(a: Arena, g: FlowerId): (r: Option<Arena>)
    requires WellFormed(a) && g < |a.flowers|
    ensures r.Some? <==> PlanBurst(a, g).Some?
    ensures r.Some? ==> WellFormed(r.value) && |r.value.flowers| == |a.flowers| && |r.value.edges| == |a.edges|
  {
    match PlanBurst(a, g)
    case None => None
    case Some(pl) =>
      var b := Splice(a, g, pl);
      match SegmentFold(b, pl.subs, 0, pl.top)
      case None => None
      case Some(c) => Some(Finish(c, g, pl))
  }

  // ---------------------------------------------------------------------------------------------
  // What a burst does.

  /** `b` and `c` are the arenas after the splice and after the segment loop, `r` the result. */
  ghost predicate Staged(a: Arena, g: FlowerId, pl: BurstPlan, b: Arena, c: Arena, r: Arena) {
    && WellFormed(a) && g < |a.flowers| && PlanFits(a, pl)
    && b == Splice(a, g, pl) && SegmentFold(b, pl.subs, 0, pl.top) == Some(c) && r == Finish(c, g, pl)
  }

  /** What `Finish` promises about `r`, as facts about the arenas alone. */
  ghost predicate FinishedFrom(c: Arena, g: FlowerId, pl: BurstPlan, r: Arena)
    requires PlanFits(c, pl) && g < |c.flowers|
  {
    && |r.flowers| == |c.flowers| && |r.edges| == |c.edges|
    && (forall x :: 0 <= x < |c.flowers| ==>
          r.flowers[x] == if x in pl.subs[pl.top + 1..] then c.flowers[x].(kind := InDumbbell) else c.flowers[x])
    && (forall j :: 0 <= j < |c.edges| ==>
          r.edges[j] == c.edges[j].(kind := ClearedKind(c, pl, j),
                                    flowers := if j in c.flowers[g].edges then RemoveAll<FlowerId>(c.edges[j].flowers, g)
                                               else c.edges[j].flowers))
  }

  /** The stages of a burst as facts: the splice keeps kinds and edge lists, then the loop, then `Finish`. */
  ghost predicate StagedFacts(a: Arena, g: FlowerId, pl: BurstPlan, b: Arena, c: Arena, r: Arena) {
    && WellFormed(a) && g < |a.flowers| && PlanFits(a, pl)
    && WellFormed(b) && |b.flowers| == |a.flowers| && b.edges == a.edges && PlanFits(b, pl)
    && (forall x :: 0 <= x < |a.flowers| ==> b.flowers[x].kind == a.flowers[x].kind && b.flowers[x].edges == a.flowers[x].edges)
    && FoldKept(b, c, pl.subs, 0, pl.top)
    && (Distinct(pl.subs) ==> FoldedAs(b, pl, c))
    && PlanFits(c, pl) && FinishedFrom(c, g, pl, r)
  }

  /** The intermediate arenas of a successful burst. */
  lemma BurstStages(a: Arena, g: FlowerId, pl: BurstPlan, r: Arena) returns (b: Arena, c: Arena)
    requires WellFormed(a) && g < |a.flowers| && PlanBurst(a, g) == Some(pl) && BurstFlower(a, g) == Some(r)
    ensures Staged(a, g, pl, b, c, r) && StagedFacts(a, g, pl, b, c, r)
  {
    b := Splice(a, g, pl);
    c := SegmentFold(b, pl.subs, 0, pl.top).value;
    SpliceFacts(a, g, pl, b);
    FoldFacts(b, pl, c);
    FinishFacts(c, g, pl, r);
  }

  lemma SpliceFacts(a: Arena, g: FlowerId, pl: BurstPlan, b: Arena)
    requires WellFormed(a) && PlanFits(a, pl) && b == Splice(a, g, pl)
    ensures WellFormed(b) && |b.flowers| == |a.flowers| && b.edges == a.edges && PlanFits(b, pl)
    ensures forall x :: 0 <= x < |a.flowers| ==> b.flowers[x].kind == a.flowers[x].kind && b.flowers[x].edges == a.flowers[x].edges
  {
  }

  lemma FoldFacts(b: Arena, pl: BurstPlan, c: Arena)
    requires WellFormed(b) && PlanFits(b, pl) && SegmentFold(b, pl.subs, 0, pl.top) == Some(c)
    ensures FoldKept(b, c, pl.subs, 0, pl.top) && PlanFits(c, pl)
    ensures Distinct(pl.subs) ==> FoldedAs(b, pl, c)
  {
    if Distinct(pl.subs) {
      FoldEffect(b, pl, c);
    }
  }

  lemma FinishFacts(c: Arena, g: FlowerId, pl: BurstPlan, r: Arena)
    requires WellFormed(c) && PlanFits(c, pl) && g < |c.flowers| && r == Finish(c, g, pl)
    ensures FinishedFrom(c, g, pl, r)
  {
  }

  /**
   * The edges after a burst: the blossom has left the flower list of each of its
   * edges, and nothing else about an edge's flowers changes.
   */
  lemma BurstEdgeFlowers(a: Arena, g: FlowerId, pl: BurstPlan, r: Arena)
    requires WellFormed(a) && g < |a.flowers| && PlanBurst(a, g) == Some(pl) && BurstFlower(a, g) == Some(r)
    ensures forall j :: 0 <= j < |a.edges| ==>
              r.edges[j].flowers == if j in a.flowers[g].edges then RemoveAll<FlowerId>(a.edges[j].flowers, g)
                                    else a.edges[j].flowers
  {
    var b, c := BurstStages(a, g, pl, r);
    StagedEdgeFlowers(a, g, pl, b, c, r);
  }

  lemma StagedEdgeFlowers(a: Arena, g: FlowerId, pl: BurstPlan, b: Arena, c: Arena, r: Arena)
    requires StagedFacts(a, g, pl, b, c, r)
    ensures |r.edges| == |a.edges|
    ensures forall j :: 0 <= j < |a.edges| ==>
              r.edges[j].flowers == if j in a.flowers[g].edges then RemoveAll<FlowerId>(a.edges[j].flowers, g)
                                    else a.edges[j].flowers
  {
  }

  /**
   * The edge kinds after a burst: the full-blocking edges at the two ends of the tree
   * segment become regular, every other edge keeps its kind.
   */
  lemma BurstEdgeKinds(a: Arena, g: FlowerId, pl: BurstPlan, r: Arena)
    requires WellFormed(a) && g < |a.flowers| && PlanBurst(a, g) == Some(pl) && BurstFlower(a, g) == Some(r)
    ensures forall j :: 0 <= j < |a.edges| ==> r.edges[j].kind == ClearedKind(a, pl, j)
  {
    var b, c := BurstStages(a, g, pl, r);
    StagedEdgeKinds(a, g, pl, b, c, r);
  }

  lemma StagedEdgeKinds(a: Arena, g: FlowerId, pl: BurstPlan, b: Arena, c: Arena, r: Arena)
    requires StagedFacts(a, g, pl, b, c, r)
    ensures |r.edges| == |a.edges|
    ensures forall j :: 0 <= j < |a.edges| ==> r.edges[j].kind == ClearedKind(a, pl, j)
  {
    forall j | 0 <= j < |a.edges|
      ensures r.edges[j].kind == ClearedKind(a, pl, j)
    {
      ClearedKindFrame(a, c, pl, j);
    }
  }

  /** Along the segment the kinds alternate odd, even, ...; the rest of the cycle is in dumbbells. */
  predicate KindsLaidOut(r: Arena, pl: BurstPlan)
    requires AllBelow(pl.subs, |r.flowers|)
  {
    forall j :: 0 <= j < |pl.subs| ==> r.flowers[pl.subs[j]].kind == if j <= pl.top then SegmentKind(j) else InDumbbell
  }

  /**
   * The kinds after a burst of a blossom with distinct subflowers: along the segment
   * they alternate odd, even, ..., and the rest of the cycle is in dumbbells.
   */
  lemma BurstKinds(a: Arena, g: FlowerId, pl: BurstPlan, r: Arena)
    requires WellFormed(a) && g < |a.flowers| && PlanBurst(a, g) == Some(pl) && BurstFlower(a, g) == Some(r)
    requires Distinct(a.flowers[g].subFlowers)
    ensures KindsLaidOut(r, pl)
  {
    var b, c := BurstStages(a, g, pl, r);
    StagedKinds(a, g, pl, b, c, r);
  }

  lemma StagedKinds(a: Arena, g: FlowerId, pl: BurstPlan, b: Arena, c: Arena, r: Arena)
    requires StagedFacts(a, g, pl, b, c, r) && Distinct(pl.subs)
    ensures |r.flowers| == |a.flowers| && KindsLaidOut(r, pl)
  {
    forall j | 0 <= j < |pl.subs|
      ensures r.flowers[pl.subs[j]].kind == if j <= pl.top then SegmentKind(j) else InDumbbell
    {
      if j <= pl.top {
        assert pl.subs[j] !in pl.subs[pl.top + 1..];
      } else {
        assert pl.subs[j] in pl.subs[pl.top + 1..];
        assert pl.subs[j] !in pl.subs[0..pl.top + 1];
      }
    }
  }

  /** A burst changes the kind of no flower outside the blossom's cycle. */
  lemma BurstKeepsOtherKinds(a: Arena, g: FlowerId, pl: BurstPlan, r: Arena)
    requires WellFormed(a) && g < |a.flowers| && PlanBurst(a, g) == Some(pl) && BurstFlower(a, g) == Some(r)
    ensures forall x :: 0 <= x < |a.flowers| && x !in a.flowers[g].subFlowers ==> r.flowers[x].kind == a.flowers[x].kind
  {
    var b, c := BurstStages(a, g, pl, r);
    StagedOtherKinds(a, g, pl, b, c, r);
    forall x | 0 <= x < |a.flowers| && x !in a.flowers[g].subFlowers
      ensures x !in pl.subs
    {
      assert x !in multiset(pl.subs);
    }
  }

  lemma StagedOtherKinds(a: Arena, g: FlowerId, pl: BurstPlan, b: Arena, c: Arena, r: Arena)
    requires StagedFacts(a, g, pl, b, c, r)
    ensures |r.flowers| == |a.flowers|
    ensures forall x :: 0 <= x < |a.flowers| && x !in pl.subs ==> r.flowers[x].kind == a.flowers[x].kind
  {
    forall x | 0 <= x < |a.flowers| && x !in pl.subs
      ensures r.flowers[x].kind == a.flowers[x].kind
    {
      assert x !in pl.subs[0..pl.top + 1] && x !in pl.subs[pl.top + 1..];
    }
  }

  /**
   * Every former subflower of a burst blossom is free again, and with an odd cycle
   * both anchors of the segment come out odd in the tree.
   */
  lemma BurstFrees(a: Arena, g: FlowerId, pl: BurstPlan, r: Arena)
    requires WellFormed(a) && g < |a.flowers| && PlanBurst(a, g) == Some(pl) && BurstFlower(a, g) == Some(r)
    requires Distinct(a.flowers[g].subFlowers)
    ensures |r.flowers| == |a.flowers|
    ensures forall x :: x in a.flowers[g].subFlowers ==> r.flowers[x].IsFree()
    ensures |a.flowers[g].subFlowers| % 2 == 1 ==> r.flowers[pl.upper].kind == OddInTree && r.flowers[pl.lower].kind == OddInTree
  {
    BurstKinds(a, g, pl, r);
    assert AllBelow(a.flowers[g].subFlowers, |r.flowers|);
    SubsFree(pl.subs, a.flowers[g].subFlowers, r, pl.top);
    assert pl.subs[0] == pl.upper && pl.subs[pl.top] == pl.lower;
  }

  lemma SubsFree(subs: seq<FlowerId>, xs: seq<FlowerId>, r: Arena, top: nat)
    requires multiset(subs) == multiset(xs) && AllBelow(subs, |r.flowers|) && AllBelow(xs, |r.flowers|)
    requires forall j :: 0 <= j < |subs| ==> r.flowers[subs[j]].kind == if j <= top then SegmentKind(j) else InDumbbell
    ensures forall x :: x in xs ==> r.flowers[x].IsFree()
  {
    forall x | x in xs
      ensures r.flowers[x].IsFree()
    {
      assert x in multiset(subs);
      var j :| 0 <= j < |subs| && subs[j] == x;
    }
  }

  /**
   * The subflowers of a blossom are dormant when none of them has a parent or a child:
   * `executeCreateFlower` leaves them so, and only a burst wakes them again.
   */
  predicate Dormant(a: Arena, xs: seq<FlowerId>)
    requires AllBelow(xs, |a.flowers|)
  {
    forall i :: 0 <= i < |xs| ==> a.flowers[xs[i]].parent.None? && a.flowers[xs[i]].children == []
  }

  /** What the splice did to `a` to give `b`, when the parent and the child lie outside the dormant cycle. */
  ghost predicate SplicedAs(a: Arena, g: FlowerId, pl: BurstPlan, b: Arena)
    requires PlanFits(a, pl)
  {
    var p := pl.parent;
    && |b.flowers| == |a.flowers|
    && b.flowers[p] == a.flowers[p].(children := RemoveAll<FlowerId>(a.flowers[p].children, g) + [pl.upper])
    && b.flowers[pl.child] == a.flowers[pl.child].(parent := Some(pl.lower))
    && b.flowers[pl.upper].parent == Some(p)
    && b.flowers[pl.lower].children == [pl.child]
    && b.flowers[pl.upper] == a.flowers[pl.upper].(parent := b.flowers[pl.upper].parent, children := b.flowers[pl.upper].children)
    && b.flowers[pl.lower] == a.flowers[pl.lower].(parent := b.flowers[pl.lower].parent, children := b.flowers[pl.lower].children)
    && (pl.upper != pl.lower ==> b.flowers[pl.upper].children == [] && b.flowers[pl.lower].parent.None?)
    && (forall x :: 0 <= x < |a.flowers| && x != p && x != pl.upper && x != pl.lower && x != pl.child ==>
          b.flowers[x] == a.flowers[x])
  }

  lemma SpliceEffect(a: Arena, g: FlowerId, pl: BurstPlan, b: Arena)
    requires WellFormed(a) && PlanFits(a, pl) && g < |a.flowers| && Dormant(a, pl.subs)
    requires pl.subs[0] == pl.upper && pl.subs[pl.top] == pl.lower
    requires pl.parent !in pl.subs && pl.child !in pl.subs && pl.parent != pl.child
    requires b == Splice(a, g, pl)
    ensures SplicedAs(a, g, pl, b)
  {
    assert pl.upper in pl.subs && pl.lower in pl.subs;
    var b1 := Adopt(a, g, pl.parent, pl.upper);
    assert b1.flowers[pl.lower].children == [] && b1.flowers[pl.child] == a.flowers[pl.child];
  }

  /** What the segment loop did to `b` to give `c`, on distinct subflowers. */
  ghost predicate FoldedAs(b: Arena, pl: BurstPlan, c: Arena)
    requires PlanFits(b, pl)
  {
    && |c.flowers| == |b.flowers|
    && (forall x :: 0 <= x < |b.flowers| && x !in pl.subs[0..pl.top + 1] ==> c.flowers[x] == b.flowers[x])
    && forall j :: 0 <= j <= pl.top ==>
         && SegmentRecord(b.flowers[pl.subs[j]], pl.subs, j).Some?
         && c.flowers[pl.subs[j]] == SegmentRecord(b.flowers[pl.subs[j]], pl.subs, j).value
  }

  lemma FoldEffect(b: Arena, pl: BurstPlan, c: Arena)
    requires WellFormed(b) && PlanFits(b, pl) && Distinct(pl.subs) && SegmentFold(b, pl.subs, 0, pl.top) == Some(c)
    ensures FoldedAs(b, pl, c)
  {
    SegmentFoldEffect(b, pl.subs, 0, pl.top);
  }

  /** What the steps after the segment loop did to `c` to give `r`: kinds only, and nothing outside the cycle. */
  ghost predicate FinishedAs(c: Arena, pl: BurstPlan, r: Arena) {
    && |r.flowers| == |c.flowers|
    && (forall x :: 0 <= x < |c.flowers| ==> r.flowers[x] == c.flowers[x].(kind := r.flowers[x].kind))
    && (forall x :: 0 <= x < |c.flowers| ==>
          r.flowers[x].parent == c.flowers[x].parent && r.flowers[x].children == c.flowers[x].children)
    && forall x :: 0 <= x < |c.flowers| && x !in pl.subs ==> r.flowers[x] == c.flowers[x]
  }

  lemma FinishEffect(c: Arena, g: FlowerId, pl: BurstPlan, r: Arena)
    requires WellFormed(c) && PlanFits(c, pl) && g < |c.flowers| && r == Finish(c, g, pl)
    ensures FinishedAs(c, pl, r)
  {
  }

  /**
   * The tree after a burst of a dormant cycle of distinct subflowers: the parent now
   * has the upper subflower in the blossom's place, the segment hangs from it as a
   * chain down to the lower subflower, which holds the blossom's child, and the
   * dumbbell part of the cycle stays unlinked.  Every flower outside the cycle other
   * than the parent and the child is untouched (the blossom itself stays as it was).
   */
  lemma BurstLinks(a: Arena, g: FlowerId, pl: BurstPlan, r: Arena)
    requires WellFormed(a) && g < |a.flowers| && PlanBurst(a, g) == Some(pl) && BurstFlower(a, g) == Some(r)
    requires var fl := a.flowers[g];
             && Distinct(fl.subFlowers) && Dormant(a, fl.subFlowers)
             && fl.parent.value !in fl.subFlowers && fl.children[0] !in fl.subFlowers && fl.parent.value != fl.children[0]
    ensures LinksLaidOut(a, g, pl, r)
  {
    var b, c := BurstStages(a, g, pl, r);
    var fl := a.flowers[g];
    assert Dormant(a, pl.subs) by {
      forall i | 0 <= i < |pl.subs|
        ensures a.flowers[pl.subs[i]].parent.None? && a.flowers[pl.subs[i]].children == []
      {
        assert pl.subs[i] in multiset(fl.subFlowers);
        var k :| 0 <= k < |fl.subFlowers| && fl.subFlowers[k] == pl.subs[i];
      }
    }
    assert pl.parent !in pl.subs && pl.child !in pl.subs by {
      assert pl.parent !in multiset(fl.subFlowers) && pl.child !in multiset(fl.subFlowers);
    }
    SpliceEffect(a, g, pl, b);
    FoldEffect(b, pl, c);
    FinishEffect(c, g, pl, r);
    LinksChain(a, pl, b, c, r);
    LinksDumbbell(a, pl, b, c, r);
    LinksOutside(a, g, pl, b, c, r);
    LinksKeepFields(a, pl, b, c, r);
  }

  /** The links `BurstLinks` describes. */
  ghost predicate LinksLaidOut(a: Arena, g: FlowerId, pl: BurstPlan, r: Arena)
    requires PlanFits(a, pl) && |r.flowers| == |a.flowers|
  {
    var p, s, top := pl.parent, pl.subs, pl.top;
    && r.flowers[p] == a.flowers[p].(children := RemoveAll<FlowerId>(a.flowers[p].children, g) + [pl.upper])
    && r.flowers[pl.upper].parent == Some(p)
    && (forall j :: 0 < j <= top ==> r.flowers[s[j]].parent == Some(s[j - 1]))
    && (forall j :: 0 <= j < top ==> r.flowers[s[j]].children == [s[j + 1]])
    && r.flowers[pl.lower].children == [pl.child]
    && r.flowers[pl.child] == a.flowers[pl.child].(parent := Some(pl.lower))
    && (forall j :: top < j < |s| ==> r.flowers[s[j]].parent.None? && r.flowers[s[j]].children == [])
    && (forall j :: 0 <= j < |s| ==>
          r.flowers[s[j]] == a.flowers[s[j]].(kind := r.flowers[s[j]].kind, parent := r.flowers[s[j]].parent,
                                              children := r.flowers[s[j]].children))
    && (forall x :: 0 <= x < |a.flowers| && x !in s && x != p && x != pl.child ==> r.flowers[x] == a.flowers[x])
  }

  /** `s[j]` does not occur in a slice that leaves out position `j`. */
  lemma DistinctOutside(s: seq<FlowerId>, lo: nat, hi: nat, j: nat)
    requires Distinct(s) && lo <= hi <= |s| && j < |s| && !(lo <= j < hi)
    ensures s[j] !in s[lo..hi]
  {
  }

  /** The links of the segment and of its two ends. */
  lemma LinksChain(a: Arena, pl: BurstPlan, b: Arena, c: Arena, r: Arena)
    requires PlanFits(a, pl) && Distinct(pl.subs) && Dormant(a, pl.subs)
    requires pl.subs[0] == pl.upper && pl.subs[pl.top] == pl.lower
    requires pl.parent !in pl.subs && pl.child !in pl.subs
    requires exists g :: SplicedAs(a, g, pl, b)
    requires FoldedAs(b, pl, c) && FinishedAs(c, pl, r)
    ensures |r.flowers| == |a.flowers|
    ensures r.flowers[pl.upper].parent == Some(pl.parent) && r.flowers[pl.lower].children == [pl.child]
    ensures forall j :: 0 < j <= pl.top ==> r.flowers[pl.subs[j]].parent == Some(pl.subs[j - 1])
    ensures forall j :: 0 <= j < pl.top ==> r.flowers[pl.subs[j]].children == [pl.subs[j + 1]]
  {
    var s, top := pl.subs, pl.top;
    forall j | 0 < j <= top
      ensures r.flowers[s[j]].parent == Some(s[j - 1])
    {
      assert s[j] != pl.upper && s[j] != pl.parent && s[j] != pl.child;
      if s[j] != pl.lower {
        assert b.flowers[s[j]] == a.flowers[s[j]];
      }
    }
    forall j | 0 <= j < top
      ensures r.flowers[s[j]].children == [s[j + 1]]
    {
      assert s[j] != pl.lower && s[j] != pl.parent && s[j] != pl.child;
      if s[j] != pl.upper {
        assert b.flowers[s[j]] == a.flowers[s[j]];
      }
    }
  }

  /** The dumbbell part of the cycle keeps its empty links. */
  lemma LinksDumbbell(a: Arena, pl: BurstPlan, b: Arena, c: Arena, r: Arena)
    requires PlanFits(a, pl) && Distinct(pl.subs) && Dormant(a, pl.subs)
    requires pl.subs[0] == pl.upper && pl.subs[pl.top] == pl.lower
    requires pl.parent !in pl.subs && pl.child !in pl.subs
    requires exists g :: SplicedAs(a, g, pl, b)
    requires FoldedAs(b, pl, c) && FinishedAs(c, pl, r)
    ensures |r.flowers| == |a.flowers|
    ensures forall j :: pl.top < j < |pl.subs| ==> r.flowers[pl.subs[j]].parent.None? && r.flowers[pl.subs[j]].children == []
  {
    var s, top := pl.subs, pl.top;
    forall j | top < j < |s|
      ensures r.flowers[s[j]].parent.None? && r.flowers[s[j]].children == []
    {
      DistinctOutside(s, 0, top + 1, j);
      assert s[j] != pl.upper && s[j] != pl.lower && s[j] != pl.parent && s[j] != pl.child;
    }
  }

  /** Every subflower keeps all of its record but its kind and its two links. */
  lemma LinksKeepFields(a: Arena, pl: BurstPlan, b: Arena, c: Arena, r: Arena)
    requires PlanFits(a, pl) && pl.parent !in pl.subs && pl.child !in pl.subs
    requires exists g :: SplicedAs(a, g, pl, b)
    requires FoldedAs(b, pl, c) && FinishedAs(c, pl, r)
    ensures |r.flowers| == |a.flowers|
    ensures forall j :: 0 <= j < |pl.subs| ==>
              r.flowers[pl.subs[j]] == a.flowers[pl.subs[j]].(kind := r.flowers[pl.subs[j]].kind,
                                                              parent := r.flowers[pl.subs[j]].parent,
                                                              children := r.flowers[pl.subs[j]].children)
  {
    var s := pl.subs;
    forall j | 0 <= j < |s|
      ensures r.flowers[s[j]] == a.flowers[s[j]].(kind := r.flowers[s[j]].kind, parent := r.flowers[s[j]].parent,
                                                  children := r.flowers[s[j]].children)
    {
      var x := s[j];
      assert x != pl.parent && x != pl.child;
      assert b.flowers[x] == a.flowers[x].(parent := b.flowers[x].parent, children := b.flowers[x].children);
      if j <= pl.top {
        assert c.flowers[x] == SegmentRecord(b.flowers[x], s, j).value;
      } else {
        assert x !in s[0..pl.top + 1] ==> c.flowers[x] == b.flowers[x];
      }
    }
  }

  /** The parent, the child and every flower outside the cycle. */
  lemma LinksOutside(a: Arena, g: FlowerId, pl: BurstPlan, b: Arena, c: Arena, r: Arena)
    requires PlanFits(a, pl) && pl.parent !in pl.subs && pl.child !in pl.subs
    requires pl.subs[0] == pl.upper && pl.subs[pl.top] == pl.lower
    requires SplicedAs(a, g, pl, b) && FoldedAs(b, pl, c) && FinishedAs(c, pl, r)
    ensures |r.flowers| == |a.flowers|
    ensures r.flowers[pl.parent] == a.flowers[pl.parent].(children := RemoveAll<FlowerId>(a.flowers[pl.parent].children, g) + [pl.upper])
    ensures r.flowers[pl.child] == a.flowers[pl.child].(parent := Some(pl.lower))
    ensures forall x :: 0 <= x < |a.flowers| && x !in pl.subs && x != pl.parent && x != pl.child ==> r.flowers[x] == a.flowers[x]
  {
    assert pl.upper in pl.subs && pl.lower in pl.subs;
  }
}
