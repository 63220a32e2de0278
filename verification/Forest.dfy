/**
 * The forest of flowers and the edges between them (Source/Types.h:11-69,
 * Source/Types.cpp).  Raw addresses become indices into an arena: a flower's id
 * is its position in `flowers`, an edge's id its position in `edges`, and a
 * newly created flower takes the next free id.
 */
module Forest {
  import opened Wrappers
  import opened Seqs

  type FlowerId = nat
  type EdgeId = nat

  /** `Flower::Type` (Source/Types.h:14-20). */
  datatype FlowerKind = EvenInTree | OddInTree | InDumbbell | Internal

  /** `Edge::Type` (Source/Types.h:51-56). */
  datatype EdgeKind = Regular | FullInPairing | FullBlocking

  /**
   * A flower: a blue flower is a vertex of the input graph, a green one a blossom
   * whose cycle of subflowers is `subFlowers` and whose stem lies in `stem`.
   */
  datatype Flower = Flower(
    kind: FlowerKind,
    power: real,
    subFlowers: seq<FlowerId>,
    stem: Option<FlowerId>,
    parent: Option<FlowerId>,
    children: seq<FlowerId>,
    edges: seq<EdgeId>,
    vertexId: int)
  {
    /** `isInDumbbell` (Source/Types.cpp:16-19). */
    predicate IsInDumbbell() { kind == InDumbbell }

    /** `isFree` (Source/Types.cpp:21-24): not swallowed by a blossom. */
    predicate IsFree() { kind != Internal }

    /** `isGreen` (Source/Types.cpp:26-29): a blossom, recognised by its stem. */
    predicate IsGreen() { stem.Some? }
  }

  /**
   * An edge: `flowers` lists every free or internal flower it touches (its blue
   * endpoints and the blossoms around them), `blueFlowers` its two vertices.
   */
  datatype Edge = Edge(kind: EdgeKind, weight: real, flowers: seq<FlowerId>, blueFlowers: seq<FlowerId>)
  {
    /** `isFull` (Source/Types.cpp:80-83). */
    predicate IsFull() { kind != Regular }
  }

  datatype Arena = Arena(flowers: seq<Flower>, edges: seq<Edge>)

  /** `Flower::Flower` (Source/Types.cpp:8-14). */
  function NewFlower(): Flower {
    Flower(EvenInTree, 0.0, [], None, None, [], [], 0)
  }

  /** `Edge::Edge` (Source/Types.cpp:85-88). */
  function NewEdge(): Edge {
    Edge(Regular, 0.0, [], [])
  }

  /**
   * The references a flower with id `id` holds are in range: subflowers (and so the
   * stem, which is one of them) were created before it, everything else exists.
   */
  predicate FlowerRefsOk(fl: Flower, id: nat, nf: nat, ne: nat) {
    && AllBelow(fl.subFlowers, id)
    && (fl.stem.Some? ==> fl.stem.value in fl.subFlowers)
    && (fl.parent.Some? ==> fl.parent.value < nf)
    && AllBelow(fl.children, nf)
    && AllBelow(fl.edges, ne)
  }

  /** An edge's references are in range and it has its two blue endpoints. */
  predicate EdgeRefsOk(ed: Edge, nf: nat) {
    && AllBelow(ed.flowers, nf)
    && |ed.blueFlowers| == 2
    && AllBelow(ed.blueFlowers, nf)
  }

  /** Every reference the source stores is a valid id of the arena. */
  predicate WellFormed(a: Arena) {
    && (forall i :: 0 <= i < |a.flowers| ==> FlowerRefsOk(a.flowers[i], i, |a.flowers|, |a.edges|))
    && (forall j :: 0 <= j < |a.edges| ==> EdgeRefsOk(a.edges[j], |a.flowers|))
  }

  /** A newly created flower is a free, blue, parentless flower of its own tree. */
  lemma NewFlowerFacts(a: Arena)
    requires WellFormed(a)
    ensures var b := a.(flowers := a.flowers + [NewFlower()]);
      && WellFormed(b)
      && b.flowers[|a.flowers|].IsFree()
      && !b.flowers[|a.flowers|].IsGreen()
      && !b.flowers[|a.flowers|].IsInDumbbell()
      && b.flowers[|a.flowers|].power == 0.0
      && b.flowers[|a.flowers|].kind == EvenInTree && b.flowers[|a.flowers|].parent.None?
      && Root(b, |a.flowers|) == Some(|a.flowers|)
      && BlueStem(b, |a.flowers|) == |a.flowers|
      && BlueSubFlowers(b, |a.flowers|) == []
  {
    var b := a.(flowers := a.flowers + [NewFlower()]);
    assert forall i :: 0 <= i < |a.flowers| ==> b.flowers[i] == a.flowers[i];
    RootOfParentless(b, |a.flowers|);
  }

  /** A newly created edge is regular and touches no flower yet. */
  lemma NewEdgeFacts()
    ensures !NewEdge().IsFull() && NewEdge().flowers == [] && NewEdge().weight == 0.0
  {
  }

  /** `isFree` holds for the three kinds outside a blossom, `isInDumbbell` for one of them. */
  lemma KindPredicates(fl: Flower)
    ensures fl.IsFree() <==> fl.kind in {EvenInTree, OddInTree, InDumbbell}
    ensures fl.IsInDumbbell() ==> fl.IsFree()
  {
  }

  // ---------------------------------------------------------------------------------------------
  // Primitive updates.  Each replaces one record and keeps the arena well formed.

  function SetFlower(a: Arena, x: FlowerId, fl: Flower): (r: Arena)
    requires WellFormed(a) && x < |a.flowers| && FlowerRefsOk(fl, x, |a.flowers|, |a.edges|)
    ensures WellFormed(r) && |r.flowers| == |a.flowers| && r.edges == a.edges
    ensures r.flowers[x] == fl
    ensures forall y :: 0 <= y < |a.flowers| && y != x ==> r.flowers[y] == a.flowers[y]
  {
    a.(flowers := a.flowers[x := fl])
  }

  function SetEdge(a: Arena, j: EdgeId, ed: Edge): (r: Arena)
    requires WellFormed(a) && j < |a.edges| && EdgeRefsOk(ed, |a.flowers|)
    ensures WellFormed(r) && r.flowers == a.flowers && |r.edges| == |a.edges|
    ensures r.edges[j] == ed
    ensures forall k :: 0 <= k < |a.edges| && k != j ==> r.edges[k] == a.edges[k]
  {
    a.(edges := a.edges[j := ed])
  }

  function SetKind(a: Arena, x: FlowerId, k: FlowerKind): (r: Arena)
    requires WellFormed(a) && x < |a.flowers|
    ensures WellFormed(r) && |r.flowers| == |a.flowers| && r.edges == a.edges
    ensures r.flowers[x] == a.flowers[x].(kind := k)
    ensures forall y :: 0 <= y < |a.flowers| && y != x ==> r.flowers[y] == a.flowers[y]
  {
    SetFlower(a, x, a.flowers[x].(kind := k))
  }

  function SetParent(a: Arena, x: FlowerId, p: Option<FlowerId>): (r: Arena)
    requires WellFormed(a) && x < |a.flowers| && (p.Some? ==> p.value < |a.flowers|)
    ensures WellFormed(r) && |r.flowers| == |a.flowers| && r.edges == a.edges
    ensures r.flowers[x] == a.flowers[x].(parent := p)
    ensures forall y :: 0 <= y < |a.flowers| && y != x ==> r.flowers[y] == a.flowers[y]
  {
    SetFlower(a, x, a.flowers[x].(parent := p))
  }

  function SetChildren(a: Arena, x: FlowerId, cs: seq<FlowerId>): (r: Arena)
    requires WellFormed(a) && x < |a.flowers| && AllBelow(cs, |a.flowers|)
    ensures WellFormed(r) && |r.flowers| == |a.flowers| && r.edges == a.edges
    ensures r.flowers[x] == a.flowers[x].(children := cs)
    ensures forall y :: 0 <= y < |a.flowers| && y != x ==> r.flowers[y] == a.flowers[y]
  {
    SetFlower(a, x, a.flowers[x].(children := cs))
  }

  function SetStem(a: Arena, x: FlowerId, s: Option<FlowerId>): (r: Arena)
    requires WellFormed(a) && x < |a.flowers| && (s.Some? ==> s.value in a.flowers[x].subFlowers)
    ensures WellFormed(r) && |r.flowers| == |a.flowers| && r.edges == a.edges
    ensures r.flowers[x] == a.flowers[x].(stem := s)
    ensures forall y :: 0 <= y < |a.flowers| && y != x ==> r.flowers[y] == a.flowers[y]
  {
    SetFlower(a, x, a.flowers[x].(stem := s))
  }

  function SetEdgeKind(a: Arena, j: EdgeId, k: EdgeKind): (r: Arena)
    requires WellFormed(a) && j < |a.edges|
    ensures WellFormed(r) && r.flowers == a.flowers && |r.edges| == |a.edges|
    ensures r.edges[j] == a.edges[j].(kind := k)
    ensures forall i :: 0 <= i < |a.edges| && i != j ==> r.edges[i] == a.edges[i]
  {
    SetEdge(a, j, a.edges[j].(kind := k))
  }

  function SetEdgeFlowers(a: Arena, j: EdgeId, fs: seq<FlowerId>): (r: Arena)
    requires WellFormed(a) && j < |a.edges| && AllBelow(fs, |a.flowers|)
    ensures WellFormed(r) && r.flowers == a.flowers && |r.edges| == |a.edges|
    ensures r.edges[j] == a.edges[j].(flowers := fs)
    ensures forall i :: 0 <= i < |a.edges| && i != j ==> r.edges[i] == a.edges[i]
  {
    SetEdge(a, j, a.edges[j].(flowers := fs))
  }

  // ---------------------------------------------------------------------------------------------
  // `root` (Source/Types.cpp:31-38).

  /** `ps` follows parent links from `ps[0]` to a flower without a parent. */
  ghost predicate IsRootPath(a: Arena, ps: seq<FlowerId>) {
    && |ps| > 0
    && (forall i :: 0 <= i < |ps| ==> ps[i] < |a.flowers|)
    && (forall i :: 0 <= i < |ps| - 1 ==> a.flowers[ps[i]].parent == Some(ps[i + 1]))
    && a.flowers[ps[|ps| - 1]].parent.None?
  }

  /**
   * The flowers visited following parent links from `f` (the walks at
   * Source/Types.cpp:33-36 and Source/Actions.cpp:368-376), or `None` when no
   * parentless flower is met within `fuel` steps.
   */
  function RootPath(a: Arena, f: FlowerId, fuel: nat): (r: Option<seq<FlowerId>>)
    requires WellFormed(a) && f < |a.flowers|
    ensures r.Some? ==> IsRootPath(a, r.value) && r.value[0] == f && |r.value| <= fuel
    decreases fuel
  {
    if fuel == 0 then None
    else
      match a.flowers[f].parent
      case None => Some([f])
      case Some(p) =>
        match RootPath(a, p, fuel - 1)
        case None => None
        case Some(ps) => Some([f] + ps)
  }

  /** Any root path fitting in the fuel is the one the walk finds. */
  lemma {:induction false} RootPathComplete(a: Arena, ps: seq<FlowerId>, fuel: nat)
    requires WellFormed(a) && IsRootPath(a, ps) && |ps| <= fuel
    ensures RootPath(a, ps[0], fuel) == Some(ps)
    decreases |ps|
  {
    if |ps| == 1 {
      assert ps == [ps[0]];
    } else {
      var tail := ps[1..];
      assert IsRootPath(a, tail) by {
        forall i | 0 <= i < |tail| - 1
          ensures a.flowers[tail[i]].parent == Some(tail[i + 1])
        {
          assert tail[i] == ps[i + 1] && tail[i + 1] == ps[i + 2];
        }
      }
      RootPathComplete(a, tail, fuel - 1);
      assert ps == [ps[0]] + tail;
    }
  }

  /** Walking from two equal positions of a root path stays in step. */
  lemma {:induction false} RootPathShift(a: Arena, ps: seq<FlowerId>, i: nat, j: nat, k: nat)
    requires IsRootPath(a, ps) && i < j && j + k < |ps|
    ensures ps[i] == ps[j] ==> ps[i + k] == ps[j + k]
    decreases k
  {
    if k > 0 {
      RootPathShift(a, ps, i, j, k - 1);
      assert a.flowers[ps[i + k - 1]].parent == Some(ps[i + k]);
      assert a.flowers[ps[j + k - 1]].parent == Some(ps[j + k]);
    }
  }

  /** A root path never visits a flower twice. */
  lemma RootPathDistinct(a: Arena, ps: seq<FlowerId>)
    requires IsRootPath(a, ps)
    ensures Distinct(ps)
  {
    forall i, j | 0 <= i < j < |ps|
      ensures ps[i] != ps[j]
    {
      var k := |ps| - 1 - j;
      RootPathShift(a, ps, i, j, k);
      assert a.flowers[ps[i + k]].parent == Some(ps[i + k + 1]);
    }
  }

  /** A sequence of distinct ids below `n` has at most `n` elements. */
  lemma {:induction false} DistinctBelow(xs: seq<nat>, n: nat)
    requires Distinct(xs) && AllBelow(xs, n)
    ensures |xs| <= n
    decreases n
  {
    if xs != [] {
      var x0 := xs[0];
      assert x0 in xs;
      var ys := xs[1..];
      assert forall y :: y in ys ==> y != x0 by {
        forall y | y in ys ensures y != x0 {
          var j :| 0 <= j < |ys| && ys[j] == y;
          assert xs[j + 1] == y;
        }
      }
      var zs := seq(|ys|, i requires 0 <= i < |ys| => if ys[i] == n - 1 then x0 else ys[i]);
      assert forall z :: z in zs ==> z < n - 1 by {
        forall z | z in zs ensures z < n - 1 {
          var i :| 0 <= i < |zs| && zs[i] == z;
          assert ys[i] == xs[i + 1] && xs[i + 1] in xs;
          assert ys[i] in ys;
        }
      }
      assert Distinct(zs) by {
        forall i, j | 0 <= i < j < |zs| ensures zs[i] != zs[j] {
          assert ys[i] == xs[i + 1] && ys[j] == xs[j + 1];
        }
      }
      DistinctBelow(zs, n - 1);
    }
  }

  /** Every root path fits in the fuel `|flowers|`. */
  lemma RootPathFits(a: Arena, ps: seq<FlowerId>)
    requires IsRootPath(a, ps)
    ensures |ps| <= |a.flowers|
  {
    RootPathDistinct(a, ps);
    DistinctBelow(ps, |a.flowers|);
  }

  /**
   * `root`: the parentless flower at the end of the parent chain from `f`; `None`
   * exactly when there is no such flower (the source loops forever).
   */
  function Root(a: Arena, f: FlowerId): (r: Option<FlowerId>)
    requires WellFormed(a) && f < |a.flowers|
    ensures r.Some? ==> r.value < |a.flowers| && a.flowers[r.value].parent.None?
    ensures r.Some? <==> exists ps :: IsRootPath(a, ps) && ps[0] == f
    ensures r.Some? ==> forall ps :: IsRootPath(a, ps) && ps[0] == f ==> ps[|ps| - 1] == r.value
  {
    RootPathsAgree(a, f);
    match RootPath(a, f, |a.flowers|)
    case None => None
    case Some(ps) => Some(ps[|ps| - 1])
  }

  lemma RootPathsAgree(a: Arena, f: FlowerId)
    requires WellFormed(a) && f < |a.flowers|
    ensures forall ps :: IsRootPath(a, ps) && ps[0] == f ==> RootPath(a, f, |a.flowers|) == Some(ps)
  {
    forall ps | IsRootPath(a, ps) && ps[0] == f
      ensures RootPath(a, f, |a.flowers|) == Some(ps)
    {
      RootPathFits(a, ps);
      RootPathComplete(a, ps, |a.flowers|);
    }
  }

  /** A parentless flower is its own root. */
  lemma RootOfParentless(a: Arena, f: FlowerId)
    requires WellFormed(a) && f < |a.flowers| && a.flowers[f].parent.None?
    ensures Root(a, f) == Some(f)
  {
    assert IsRootPath(a, [f]);
  }

  /** A flower and its parent have the same root. */
  lemma RootOfChild(a: Arena, f: FlowerId)
    requires WellFormed(a) && f < |a.flowers| && a.flowers[f].parent.Some?
    ensures Root(a, a.flowers[f].parent.value) == Root(a, f)
  {
    var p := a.flowers[f].parent.value;
    if Root(a, p).Some? {
      var ps := RootPath(a, p, |a.flowers|).value;
      RootPathExtend(a, f, ps);
      var qs := [f] + ps;
      assert qs[0] == f && qs[|qs| - 1] == ps[|ps| - 1];
    }
    if Root(a, f).Some? {
      var ps := RootPath(a, f, |a.flowers|).value;
      var tail := ps[1..];
      assert IsRootPath(a, tail) by {
        forall i | 0 <= i < |tail| - 1
          ensures a.flowers[tail[i]].parent == Some(tail[i + 1])
        {
          assert tail[i] == ps[i + 1] && tail[i + 1] == ps[i + 2];
        }
      }
    }
  }

  lemma RootPathExtend(a: Arena, f: FlowerId, ps: seq<FlowerId>)
    requires WellFormed(a) && f < |a.flowers| && IsRootPath(a, ps) && a.flowers[f].parent == Some(ps[0])
    ensures IsRootPath(a, [f] + ps)
  {
    var qs := [f] + ps;
    forall i | 0 <= i < |qs| - 1
      ensures a.flowers[qs[i]].parent == Some(qs[i + 1])
    {
      if i > 0 {
        assert qs[i] == ps[i - 1] && qs[i + 1] == ps[i];
      }
    }
  }

  /** A root path continues as a root path from each of its flowers. */
  lemma RootPathSuffix(a: Arena, ps: seq<FlowerId>, i: nat)
    requires IsRootPath(a, ps) && i < |ps|
    ensures IsRootPath(a, ps[i..])
  {
    var tail := ps[i..];
    forall j | 0 <= j < |tail| - 1
      ensures a.flowers[tail[j]].parent == Some(tail[j + 1])
    {
      assert tail[j] == ps[i + j] && tail[j + 1] == ps[i + j + 1];
    }
  }

  /** The root depends on parent links only. */
  lemma RootFrame(a: Arena, b: Arena, f: FlowerId)
    requires WellFormed(a) && WellFormed(b) && |a.flowers| == |b.flowers| && f < |a.flowers|
    requires forall x :: 0 <= x < |a.flowers| ==> a.flowers[x].parent == b.flowers[x].parent
    ensures Root(a, f) == Root(b, f)
  {
    forall ps ensures IsRootPath(a, ps) <==> IsRootPath(b, ps) {
    }
  }

  // ---------------------------------------------------------------------------------------------
  // `blueSubFlowers` and `blueStem` (Source/Types.cpp:56-78).

  /**
   * `blueSubFlowers`: the vertices inside blossom `f`, listed in the order of its
   * subflowers with green subflowers expanded in place.
   */
  function BlueSubFlowers(a: Arena, f: FlowerId): (r: seq<FlowerId>)
    requires WellFormed(a) && f < |a.flowers|
    ensures AllBelow(r, f) && forall x :: x in r ==> !a.flowers[x].IsGreen()
    ensures a.flowers[f].subFlowers == [] ==> r == []
    decreases f, 1
  {
    BlueOf(a, a.flowers[f].subFlowers, f)
  }

  /** The vertices of the flowers `xs`, all below `bound`, in order. */
  function BlueOf(a: Arena, xs: seq<FlowerId>, bound: nat): (r: seq<FlowerId>)
    requires WellFormed(a) && bound <= |a.flowers| && AllBelow(xs, bound)
    ensures AllBelow(r, bound) && forall x :: x in r ==> !a.flowers[x].IsGreen()
    decreases bound, 0, |xs|
  {
    if xs == [] then []
    else
      var x := xs[0];
      assert x in xs && forall y :: y in xs[1..] ==> y in xs;
      (if a.flowers[x].IsGreen() then BlueSubFlowers(a, x) else [x]) + BlueOf(a, xs[1..], bound)
  }

  /** Flattening a concatenation flattens each part. */
  lemma {:induction false} BlueOfAppend(a: Arena, xs: seq<FlowerId>, ys: seq<FlowerId>, bound: nat)
    requires WellFormed(a) && bound <= |a.flowers|
    requires AllBelow(xs, bound) && AllBelow(ys, bound)
    ensures BlueOf(a, xs + ys, bound) == BlueOf(a, xs, bound) + BlueOf(a, ys, bound)
    decreases |xs|
  {
    if xs == [] {
      assert xs + ys == ys;
    } else {
      assert (xs + ys)[0] == xs[0] && (xs + ys)[1..] == xs[1..] + ys;
      assert forall y :: y in xs[1..] ==> y in xs;
      BlueOfAppend(a, xs[1..], ys, bound);
    }
  }

  /** Blue flowers flatten to themselves. */
  lemma {:induction false} BlueOfAllBlue(a: Arena, xs: seq<FlowerId>, bound: nat)
    requires WellFormed(a) && bound <= |a.flowers| && AllBelow(xs, bound)
    requires forall x :: x in xs ==> !a.flowers[x].IsGreen()
    ensures BlueOf(a, xs, bound) == xs
    decreases |xs|
  {
    if xs != [] {
      assert forall y :: y in xs[1..] ==> y in xs;
      BlueOfAllBlue(a, xs[1..], bound);
    }
  }

  /** The bound only limits the recursion; any admissible bound gives the same list. */
  lemma {:induction false} BlueOfBound(a: Arena, xs: seq<FlowerId>, b1: nat, b2: nat)
    requires WellFormed(a) && b1 <= |a.flowers| && b2 <= |a.flowers|
    requires AllBelow(xs, b1) && AllBelow(xs, b2)
    ensures BlueOf(a, xs, b1) == BlueOf(a, xs, b2)
    decreases |xs|
  {
    if xs != [] {
      assert forall y :: y in xs[1..] ==> y in xs;
      BlueOfBound(a, xs[1..], b1, b2);
    }
  }

  /**
   * `blueStem`: follow stems down to a blue flower, which holds the blossom's
   * stem vertex.
   */
  function BlueStem(a: Arena, f: FlowerId): (r: FlowerId)
    requires WellFormed(a) && f < |a.flowers|
    ensures r <= f && !a.flowers[r].IsGreen()
    ensures StemReaches(a, f, r)
    decreases f
  {
    match a.flowers[f].stem
    case None => f
    case Some(s) => BlueStem(a, s)
  }

  /** `g` is reached from `f` by following stem links. */
  ghost predicate StemReaches(a: Arena, f: FlowerId, g: FlowerId)
    requires WellFormed(a) && f < |a.flowers|
    decreases f
  {
    f == g || (a.flowers[f].stem.Some? && StemReaches(a, a.flowers[f].stem.value, g))
  }

  /** The blue stem is the only blue flower on the stem chain; a blue flower is its own. */
  lemma {:induction false} BlueStemUnique(a: Arena, f: FlowerId, g: FlowerId)
    requires WellFormed(a) && f < |a.flowers| && g < |a.flowers| && StemReaches(a, f, g)
    requires !a.flowers[g].IsGreen()
    ensures BlueStem(a, f) == g
    decreases f
  {
    if f != g {
      BlueStemUnique(a, a.flowers[f].stem.value, g);
    }
  }

  /** The blue stem of a member of `xs` is one of the vertices of `xs`. */
  lemma {:induction false} BlueStemInBlueOf(a: Arena, xs: seq<FlowerId>, bound: nat, x: FlowerId)
    requires WellFormed(a) && bound <= |a.flowers| && AllBelow(xs, bound)
    requires x in xs
    ensures BlueStem(a, x) in BlueOf(a, xs, bound)
    decreases bound, |xs|
  {
    if xs[0] == x {
      if a.flowers[x].IsGreen() {
        BlueStemInBlueOf(a, a.flowers[x].subFlowers, x, a.flowers[x].stem.value);
      }
    } else {
      assert forall y :: y in xs[1..] ==> y in xs;
      BlueStemInBlueOf(a, xs[1..], bound, x);
    }
  }

  /** The blue stem of a blossom is one of its vertices. */
  lemma BlueStemInside(a: Arena, f: FlowerId)
    requires WellFormed(a) && f < |a.flowers| && a.flowers[f].IsGreen()
    ensures BlueStem(a, f) in BlueSubFlowers(a, f)
  {
    BlueStemInBlueOf(a, a.flowers[f].subFlowers, f, a.flowers[f].stem.value);
  }

  /** Both queries read only the subflower and stem fields. */
  lemma {:induction false} BlueFrame(a: Arena, b: Arena, f: FlowerId)
    requires WellFormed(a) && WellFormed(b) && f < |a.flowers| && f < |b.flowers|
    requires forall x :: 0 <= x <= f ==>
               a.flowers[x].subFlowers == b.flowers[x].subFlowers && a.flowers[x].stem == b.flowers[x].stem
    ensures BlueSubFlowers(a, f) == BlueSubFlowers(b, f)
    ensures BlueStem(a, f) == BlueStem(b, f)
    decreases f
  {
    BlueOfFrame(a, b, a.flowers[f].subFlowers, f);
    if a.flowers[f].stem.Some? {
      BlueFrame(a, b, a.flowers[f].stem.value);
    }
  }

  lemma {:induction false} BlueOfFrame(a: Arena, b: Arena, xs: seq<FlowerId>, bound: nat)
    requires WellFormed(a) && WellFormed(b) && bound <= |a.flowers| && bound <= |b.flowers|
    requires AllBelow(xs, bound)
    requires forall x :: 0 <= x < bound ==>
               a.flowers[x].subFlowers == b.flowers[x].subFlowers && a.flowers[x].stem == b.flowers[x].stem
    ensures BlueOf(a, xs, bound) == BlueOf(b, xs, bound)
    decreases bound, |xs|
  {
    if xs != [] {
      if a.flowers[xs[0]].IsGreen() {
        BlueFrame(a, b, xs[0]);
      }
      assert forall y :: y in xs[1..] ==> y in xs;
      BlueOfFrame(a, b, xs[1..], bound);
    }
  }

  // ---------------------------------------------------------------------------------------------
  // Edge searches: `inPairingEdge` (Source/Types.cpp:40-54) and the loops of
  // Source/Actions.cpp that look for the first full-blocking edge reaching a flower.

  /** Edge `e` has kind `k` and, when `via` is given, touches that flower. */
  predicate EdgeMatches(a: Arena, e: EdgeId, k: EdgeKind, via: Option<FlowerId>)
    requires e < |a.edges|
  {
    a.edges[e].kind == k && (via.Some? ==> via.value in a.edges[e].flowers)
  }

  /** Position in `es` of the first edge that matches, if any. */
  function FindEdge(a: Arena, es: seq<EdgeId>, k: EdgeKind, via: Option<FlowerId>): (r: Option<nat>)
    requires AllBelow(es, |a.edges|)
    ensures r.Some? ==> r.value < |es| && EdgeMatches(a, es[r.value], k, via)
                        && forall i :: 0 <= i < r.value ==> !EdgeMatches(a, es[i], k, via)
    ensures r.None? <==> forall i :: 0 <= i < |es| ==> !EdgeMatches(a, es[i], k, via)
  {
    if es == [] then None
    else if EdgeMatches(a, es[0], k, via) then Some(0)
    else
      match FindEdge(a, es[1..], k, via)
      case None => None
      case Some(i) => Some(i + 1)
  }

  /**
   * `inPairingEdge`: the first incident edge of kind full-in-pairing; `None` when
   * there is none (the source returns null, or aborts in the debug build).
   */
  function InPairingEdge(a: Arena, f: FlowerId): (r: Option<EdgeId>)
    requires WellFormed(a) && f < |a.flowers|
    ensures r.Some? ==> r.value < |a.edges| && a.edges[r.value].kind == FullInPairing
    ensures r.Some? ==> exists i :: 0 <= i < |a.flowers[f].edges| && a.flowers[f].edges[i] == r.value
                           && forall j :: 0 <= j < i ==> a.edges[a.flowers[f].edges[j]].kind != FullInPairing
    ensures r.None? <==> forall e :: e in a.flowers[f].edges ==> a.edges[e].kind != FullInPairing
  {
    var es := a.flowers[f].edges;
    match FindEdge(a, es, FullInPairing, None)
    case None => None
    case Some(i) => Some(es[i])
  }

  /** The edge search reads the edges only. */
  lemma {:induction false} FindEdgeFrame(a: Arena, b: Arena, es: seq<EdgeId>, k: EdgeKind, via: Option<FlowerId>)
    requires AllBelow(es, |a.edges|) && a.edges == b.edges
    ensures FindEdge(a, es, k, via) == FindEdge(b, es, k, via)
    decreases |es|
  {
    if es != [] {
      FindEdgeFrame(a, b, es[1..], k, via);
    }
  }

  /** `inPairingEdge` reads the edges and the flower's own edge list only. */
  lemma InPairingFrame(a: Arena, b: Arena, f: FlowerId)
    requires WellFormed(a) && WellFormed(b) && f < |a.flowers| && f < |b.flowers|
    requires a.edges == b.edges && a.flowers[f].edges == b.flowers[f].edges
    ensures InPairingEdge(a, f) == InPairingEdge(b, f)
  {
    FindEdgeFrame(a, b, a.flowers[f].edges, FullInPairing, None);
  }

  // ---------------------------------------------------------------------------------------------
  // `Edge::freeFlowers` (Source/Types.cpp:90-111).

  /** The free flowers among `xs`, in order. */
  function FreeOf(a: Arena, xs: seq<FlowerId>): (r: seq<FlowerId>)
    requires AllBelow(xs, |a.flowers|)
    ensures AllBelow(r, |a.flowers|) && forall x :: x in r ==> a.flowers[x].IsFree()
    ensures forall x :: 0 <= x < |a.flowers| ==>
              multiset(r)[x] == if a.flowers[x].IsFree() then multiset(xs)[x] else 0
    ensures IsSubsequence(r, xs)
  {
    if xs == [] then []
    else
      assert xs == [xs[0]] + xs[1..];
      if a.flowers[xs[0]].IsFree() then [xs[0]] + FreeOf(a, xs[1..]) else FreeOf(a, xs[1..])
  }

  /** `freeFlowers`: the free flowers the edge touches, in the order it lists them. */
  function FreeFlowers(a: Arena, e: EdgeId): (r: seq<FlowerId>)
    requires WellFormed(a) && e < |a.edges|
    ensures AllBelow(r, |a.flowers|) && forall x :: x in r ==> a.flowers[x].IsFree()
    ensures forall x :: 0 <= x < |a.flowers| ==>
              multiset(r)[x] == if a.flowers[x].IsFree() then multiset(a.edges[e].flowers)[x] else 0
    ensures IsSubsequence(r, a.edges[e].flowers)
  {
    FreeOf(a, a.edges[e].flowers)
  }

  /** Which flowers count as free depends on the free/not-free status only. */
  lemma {:induction false} FreeOfFrame(a: Arena, b: Arena, xs: seq<FlowerId>)
    requires AllBelow(xs, |a.flowers|) && |a.flowers| == |b.flowers|
    requires forall x :: 0 <= x < |a.flowers| ==> (a.flowers[x].IsFree() <==> b.flowers[x].IsFree())
    ensures FreeOf(a, xs) == FreeOf(b, xs)
    decreases |xs|
  {
    if xs != [] {
      FreeOfFrame(a, b, xs[1..]);
    }
  }
}
