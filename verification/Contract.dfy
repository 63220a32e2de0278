/**
 * `executeCreateFlower` (Source/Actions.cpp:362-453): a tight edge between two even
 * flowers K and H of the same tree closes an odd cycle through their lowest common
 * ancestor W.  The cycle is contracted into a new blossom Z that takes W's place in
 * the tree; the subflowers fall asleep inside it.
 */
module Contract {
  import opened Wrappers
  import opened Seqs
  import opened Forest
  import opened Reorder
  import opened Burst

  /**
   * The number of leading entries two lists share: how far the reverse-iterator walk of
   * Source/Actions.cpp:380-388 gets before the paths part.
   */
  function CommonPrefix(xs: seq<FlowerId>, ys: seq<FlowerId>): (r: nat)
    ensures r <= |xs| && r <= |ys|
    ensures xs[..r] == ys[..r]
    ensures r < |xs| && r < |ys| ==> xs[r] != ys[r]
  {
    if xs == [] || ys == [] || xs[0] != ys[0] then 0
    else
      var r := CommonPrefix(xs[1..], ys[1..]);
      assert xs[..r + 1] == [xs[0]] + xs[1..][..r] && ys[..r + 1] == [ys[0]] + ys[1..][..r];
      1 + r
  }

  /** The flowers a contraction works with, as the source finds them before changing anything. */
  datatype CreatePlan = CreatePlan(
    w: FlowerId,                 // the lowest common ancestor of K and H
    kPath: seq<FlowerId>,        // K's path to the root
    hPath: seq<FlowerId>,        // H's path to the root
    common: nat,                 // how many flowers the two paths share, W included
    subs: seq<FlowerId>)         // the subflowers W, K_p, ..., K, H, ..., H_q

  /**
   * The cycle in the order Source/Actions.cpp:400-408 lists it: W, then K's path read
   * downwards from just below W to K, then H's path read upwards from H to just below W.
   */
  predicate CycleShape(pl: CreatePlan)
    requires pl.common <= |pl.kPath| && pl.common <= |pl.hPath|
  {
    var kc, hc := |pl.kPath| - pl.common, |pl.hPath| - pl.common;
    && |pl.subs| == 1 + kc + hc
    && pl.subs[0] == pl.w
    && (forall i :: 1 <= i <= kc ==> pl.subs[i] == pl.kPath[kc - i])
    && (forall t :: 0 <= t < hc ==> pl.subs[kc + 1 + t] == pl.hPath[t])
  }

  /**
   * What the look-ups of a contraction find: both root paths, which end in the same
   * `common` flowers and part just below them, with W the first shared flower.
   */
  ghost predicate PlanShape(a: Arena, k: FlowerId, h: FlowerId, pl: CreatePlan) {
    var kp, hp, c := pl.kPath, pl.hPath, pl.common;
    && IsRootPath(a, kp) && kp[0] == k
    && IsRootPath(a, hp) && hp[0] == h
    && 0 < c <= |kp| && c <= |hp|
    && SameTail(kp, hp, c)
    && (c < |kp| && c < |hp| ==> kp[|kp| - c - 1] != hp[|hp| - c - 1])
    && pl.w == kp[|kp| - c]
    && CycleShape(pl)
    && pl.w < |a.flowers| && AllBelow(pl.subs, |a.flowers|)
  }

  /** The last `c` entries of `xs` and `ys` agree. */
  predicate SameTail(xs: seq<FlowerId>, ys: seq<FlowerId>, c: nat)
    requires c <= |xs| && c <= |ys|
  {
    forall i :: |xs| - c <= i < |xs| ==> xs[i] == ys[i + |ys| - |xs|]
  }

  /** Equal leading parts of two reversed lists are equal trailing parts of the lists. */
  lemma TailsMeet(xs: seq<FlowerId>, ys: seq<FlowerId>, c: nat)
    requires c <= |xs| && c <= |ys| && Reverse(xs)[..c] == Reverse(ys)[..c]
    ensures SameTail(xs, ys, c)
  {
    forall i | |xs| - c <= i < |xs|
      ensures xs[i] == ys[i + |ys| - |xs|]
    {
      assert Reverse(xs)[|xs| - 1 - i] == Reverse(ys)[|xs| - 1 - i];
    }
  }

  /**
   * The look-ups of Source/Actions.cpp:364-408.  `None` when a parent chain never ends
   * (the source loops forever) or the two chains end in different roots (W stays null
   * and is dereferenced): a contraction exactly needs K and H to share their root.
   */
  function PlanCreate(a: Arena, k: FlowerId, h: FlowerId): (r: Option<CreatePlan>)
    requires WellFormed(a) && k < |a.flowers| && h < |a.flowers|
    ensures r.Some? <==> Root(a, k).Some? && Root(a, k) == Root(a, h)
    ensures r.Some? ==> PlanShape(a, k, h, r.value)
  {
    var n := |a.flowers|;
    match RootPath(a, k, n)
    case None => None
    case Some(kp) =>
      match RootPath(a, h, n)
      case None => None
      case Some(hp) =>
        var c := CommonPrefix(Reverse(kp), Reverse(hp));
        if c == 0 then
          assert Reverse(kp)[0] != Reverse(hp)[0];
          None
        else
          PlanFrom(a, k, h, kp, hp, c)
  }

  /** The subflowers: W = `kp[|kp| - c]`, the rest of K's path reversed, then H's path up to W. */
  function CycleOf(kp: seq<FlowerId>, hp: seq<FlowerId>, c: nat): (r: seq<FlowerId>)
    requires 0 < c <= |kp| && kp[|kp| - c] in hp
  {
    [kp[|kp| - c]] + Reverse(kp)[c..] + PrefixBefore(hp, kp[|kp| - c])
  }

  /** The plan once both root paths are known and share `c > 0` flowers. */
  function PlanFrom(a: Arena, k: FlowerId, h: FlowerId, kp: seq<FlowerId>, hp: seq<FlowerId>, c: nat): (r: Option<CreatePlan>)
    requires WellFormed(a) && IsRootPath(a, kp) && kp[0] == k && IsRootPath(a, hp) && hp[0] == h
    requires 0 < c <= |kp| && c <= |hp| && c == CommonPrefix(Reverse(kp), Reverse(hp))
    ensures r.Some? && PlanShape(a, k, h, r.value)
  {
    PlanFromShape(a, k, h, kp, hp, c);
    Some(CreatePlan(kp[|kp| - c], kp, hp, c, CycleOf(kp, hp, c)))
  }

  lemma PlanFromShape(a: Arena, k: FlowerId, h: FlowerId, kp: seq<FlowerId>, hp: seq<FlowerId>, c: nat)
    requires WellFormed(a) && IsRootPath(a, kp) && kp[0] == k && IsRootPath(a, hp) && hp[0] == h
    requires 0 < c <= |kp| && c <= |hp| && c == CommonPrefix(Reverse(kp), Reverse(hp))
    ensures kp[|kp| - c] in hp
    ensures PlanShape(a, k, h, CreatePlan(kp[|kp| - c], kp, hp, c, CycleOf(kp, hp, c)))
  {
    TailsMeet(kp, hp, c);
    var w := Reverse(kp)[c - 1];
    assert w == kp[|kp| - c] && w == hp[|hp| - c];
    RootPathDistinct(a, hp);
    CycleShapeHolds(kp, hp, c);
    CycleBelow(a, kp, hp, c);
  }

  lemma CycleShapeHolds(kp: seq<FlowerId>, hp: seq<FlowerId>, c: nat)
    requires 0 < c <= |kp| && c <= |hp| && Distinct(hp) && kp[|kp| - c] == hp[|hp| - c]
    ensures CycleShape(CreatePlan(kp[|kp| - c], kp, hp, c, CycleOf(kp, hp, c)))
  {
    var kc, hc := |kp| - c, |hp| - c;
    PrefixBeforeAt(hp, hc);
    var subs := CycleOf(kp, hp, c);
    assert subs == [kp[kc]] + Reverse(kp)[c..] + hp[..hc];
    forall i | 1 <= i <= kc ensures subs[i] == kp[kc - i] {
      assert subs[i] == Reverse(kp)[c + i - 1];
    }
    forall t | 0 <= t < hc ensures subs[kc + 1 + t] == hp[t] {
      assert subs[kc + 1 + t] == hp[..hc][t];
    }
  }

  lemma CycleBelow(a: Arena, kp: seq<FlowerId>, hp: seq<FlowerId>, c: nat)
    requires 0 < c <= |kp| && c <= |hp| && IsRootPath(a, kp) && IsRootPath(a, hp)
    requires kp[|kp| - c] == hp[|hp| - c]
    ensures AllBelow(CycleOf(kp, hp, c), |a.flowers|)
  {
    var subs := CycleOf(kp, hp, c);
    var kc := |kp| - c;
    var pre := PrefixBefore(hp, kp[kc]);
    forall i | 0 <= i < |subs| ensures subs[i] < |a.flowers| {
      if 1 <= i <= kc {
        assert subs[i] == Reverse(kp)[c + i - 1];
      } else if i > kc {
        assert subs[i] == pre[i - kc - 1] == hp[i - kc - 1];
      }
    }
  }

  // ---------------------------------------------------------------------------------------------
  // What the look-ups find.

  /** Two root paths through the same flower continue alike from it. */
  lemma SuffixesAgree(a: Arena, kp: seq<FlowerId>, hp: seq<FlowerId>, i: nat, j: nat)
    requires WellFormed(a) && IsRootPath(a, kp) && IsRootPath(a, hp)
    requires i < |kp| && j < |hp| && kp[i] == hp[j]
    ensures kp[i..] == hp[j..]
  {
    RootPathSuffix(a, kp, i);
    RootPathSuffix(a, hp, j);
    RootPathFits(a, kp[i..]);
    RootPathFits(a, hp[j..]);
    RootPathComplete(a, kp[i..], |a.flowers|);
    RootPathComplete(a, hp[j..], |a.flowers|);
  }

  /**
   * Two root paths that part just below their last `c` flowers share no other flower:
   * a flower on both lies at the same height above the root on each, among the last `c`.
   */
  lemma MeetAbove(a: Arena, kp: seq<FlowerId>, hp: seq<FlowerId>, c: nat, i: nat, j: nat)
    requires WellFormed(a) && IsRootPath(a, kp) && IsRootPath(a, hp) && c <= |kp| && c <= |hp|
    requires c < |kp| && c < |hp| ==> kp[|kp| - c - 1] != hp[|hp| - c - 1]
    requires i < |kp| && j < |hp| && kp[i] == hp[j]
    ensures i >= |kp| - c && j >= |hp| - c
    ensures |kp| - i == |hp| - j
  {
    SuffixesAgree(a, kp, hp, i, j);
    var len := |kp| - i;
    assert |hp| - j == len;
  }

  /**
   * W is the lowest common ancestor of K and H: it lies on both root paths, and no
   * flower below it on either path lies on the other.
   */
  lemma CreateLowest(a: Arena, k: FlowerId, h: FlowerId, pl: CreatePlan)
    requires WellFormed(a) && PlanShape(a, k, h, pl)
    ensures pl.w in pl.kPath && pl.w in pl.hPath
    ensures forall i, j :: 0 <= i < |pl.kPath| && 0 <= j < |pl.hPath| && pl.kPath[i] == pl.hPath[j] ==>
              i >= |pl.kPath| - pl.common && j >= |pl.hPath| - pl.common
  {
    var kp, hp, c := pl.kPath, pl.hPath, pl.common;
    assert pl.w == kp[|kp| - c] == hp[|hp| - c];
    forall i, j | 0 <= i < |kp| && 0 <= j < |hp| && kp[i] == hp[j]
      ensures i >= |kp| - c && j >= |hp| - c
    {
      MeetAbove(a, kp, hp, c, i, j);
    }
  }

  /** The flowers of the cycle are all different. */
  lemma CreateDistinct(a: Arena, k: FlowerId, h: FlowerId, pl: CreatePlan)
    requires WellFormed(a) && PlanShape(a, k, h, pl)
    ensures Distinct(pl.subs)
  {
    var kp, hp, c, s := pl.kPath, pl.hPath, pl.common, pl.subs;
    var kc, hc := |kp| - c, |hp| - c;
    RootPathDistinct(a, kp);
    RootPathDistinct(a, hp);
    forall p, q | 0 <= p < q < |s|
      ensures s[p] != s[q]
    {
      var pk := if p == 0 then kp[kc] else if p <= kc then kp[kc - p] else hp[p - kc - 1];
      assert s[p] == pk;
      if q <= kc {
        assert s[q] == kp[kc - q];
      } else if p <= kc {
        assert s[p] == kp[kc - p] && s[q] == hp[q - kc - 1];
        if s[p] == s[q] {
          MeetAbove(a, kp, hp, c, kc - p, q - kc - 1);
        }
      } else {
        assert s[p] == hp[p - kc - 1] && s[q] == hp[q - kc - 1];
      }
    }
  }

  /** W's parent, which Z takes over, lies outside the cycle. */
  lemma CreateParentOutside(a: Arena, k: FlowerId, h: FlowerId, pl: CreatePlan)
    requires WellFormed(a) && PlanShape(a, k, h, pl)
    ensures a.flowers[pl.w].parent.Some? ==> a.flowers[pl.w].parent.value !in pl.subs
  {
    var kp, hp, c, s := pl.kPath, pl.hPath, pl.common, pl.subs;
    var kc, hc := |kp| - c, |hp| - c;
    if a.flowers[pl.w].parent.Some? {
      var p := a.flowers[pl.w].parent.value;
      assert kc + 1 < |kp| && p == kp[kc + 1];
      RootPathDistinct(a, kp);
      forall i | 0 <= i < |s|
        ensures s[i] != p
      {
        if i == 0 {
        } else if i <= kc {
          assert s[i] == kp[kc - i];
        } else {
          assert s[i] == hp[i - kc - 1];
          if s[i] == p {
            MeetAbove(a, kp, hp, c, kc + 1, i - kc - 1);
          }
        }
      }
    }
  }

  /**
   * The cycle the new edge closes: going round the subflowers, each one down the K
   * side is a child of the one before it, each one up the H side a child of the one
   * after it (the last of them of W); the only step not along a tree link is the one
   * from K to H, which the new edge makes.
   */
  lemma CreateCycleLinks(a: Arena, k: FlowerId, h: FlowerId, pl: CreatePlan)
    requires WellFormed(a) && PlanShape(a, k, h, pl)
    ensures var kc, s := |pl.kPath| - pl.common, pl.subs;
      && kc < |s| && s[kc] == k
      && (kc + 1 < |s| ==> s[kc + 1] == h)
      && (kc + 1 == |s| ==> h == s[0])
      && (forall i :: 1 <= i <= kc ==> a.flowers[s[i]].parent == Some(s[i - 1]))
      && (forall i :: kc < i < |s| - 1 ==> a.flowers[s[i]].parent == Some(s[i + 1]))
      && (kc < |s| - 1 ==> a.flowers[s[|s| - 1]].parent == Some(s[0]))
  {
    CycleEnds(a, k, h, pl);
    CycleDown(a, k, h, pl);
    CycleUp(a, k, h, pl);
  }

  lemma CycleEnds(a: Arena, k: FlowerId, h: FlowerId, pl: CreatePlan)
    requires WellFormed(a) && PlanShape(a, k, h, pl)
    ensures var kc, s := |pl.kPath| - pl.common, pl.subs;
      && kc < |s| && s[kc] == k
      && (kc + 1 < |s| ==> s[kc + 1] == h)
      && (kc + 1 == |s| ==> h == s[0])
  {
    var kp, hp, c, s := pl.kPath, pl.hPath, pl.common, pl.subs;
    var kc, hc := |kp| - c, |hp| - c;
    assert pl.w == kp[kc] == hp[hc];
    assert s[kc] == kp[0];
  }

  lemma CycleDown(a: Arena, k: FlowerId, h: FlowerId, pl: CreatePlan)
    requires WellFormed(a) && PlanShape(a, k, h, pl)
    ensures var kc, s := |pl.kPath| - pl.common, pl.subs;
      forall i :: 1 <= i <= kc ==> a.flowers[s[i]].parent == Some(s[i - 1])
  {
    var kp, c, s := pl.kPath, pl.common, pl.subs;
    var kc := |kp| - c;
    forall i | 1 <= i <= kc
      ensures a.flowers[s[i]].parent == Some(s[i - 1])
    {
      assert s[i] == kp[kc - i] && s[i - 1] == kp[kc - i + 1];
    }
  }

  lemma CycleUp(a: Arena, k: FlowerId, h: FlowerId, pl: CreatePlan)
    requires WellFormed(a) && PlanShape(a, k, h, pl)
    ensures var kc, s := |pl.kPath| - pl.common, pl.subs;
      && (forall i :: kc < i < |s| - 1 ==> a.flowers[s[i]].parent == Some(s[i + 1]))
      && (kc < |s| - 1 ==> a.flowers[s[|s| - 1]].parent == Some(s[0]))
  {
    var kp, hp, c, s := pl.kPath, pl.hPath, pl.common, pl.subs;
    var kc, hc := |kp| - c, |hp| - c;
    forall i | kc < i < |s| - 1
      ensures a.flowers[s[i]].parent == Some(s[i + 1])
    {
      assert s[i] == hp[i - kc - 1] && s[i + 1] == hp[i - kc];
    }
    if kc < |s| - 1 {
      assert pl.w == hp[hc];
      assert s[|s| - 1] == hp[hc - 1];
    }
  }

  // ---------------------------------------------------------------------------------------------
  // Building Z.

  /** A new flower record joins the arena with the next free id. */
  function AddFlower(a: Arena, fl: Flower): (r: Arena)
    requires WellFormed(a) && FlowerRefsOk(fl, |a.flowers|, |a.flowers| + 1, |a.edges|)
    ensures WellFormed(r) && r.flowers == a.flowers + [fl] && r.edges == a.edges
  {
    var r := a.(flowers := a.flowers + [fl]);
    assert forall i :: 0 <= i < |a.flowers| ==> r.flowers[i] == a.flowers[i];
    r
  }

  /**
   * Source/Actions.cpp:393-398: when there is a parent `p`, `z` replaces `w` among its
   * children, at the end of the list.
   */
  function ReplaceChild(a: Arena, p: Option<FlowerId>, w: FlowerId, z: FlowerId): (r: Arena)
    requires WellFormed(a) && (p.Some? ==> p.value < |a.flowers|) && z < |a.flowers|
    ensures WellFormed(r) && |r.flowers| == |a.flowers| && r.edges == a.edges
    ensures forall x :: 0 <= x < |a.flowers| ==>
              r.flowers[x] == if p == Some(x) then a.flowers[x].(children := RemoveAll<FlowerId>(a.flowers[x].children, w) + [z])
                              else a.flowers[x]
  {
    match p
    case None => a
    case Some(q) =>
      var cs := RemoveAll<FlowerId>(a.flowers[q].children, w) + [z];
      assert AllBelow(cs, |a.flowers|) by {
        forall i | 0 <= i < |cs| ensures cs[i] < |a.flowers| {
          if i < |cs| - 1 { assert cs[i] in a.flowers[q].children; }
        }
      }
      SetChildren(a, q, cs)
  }

  /** The children in `cs` that do not belong to Z: their blue stem is not among Z's vertices `zb`. */
  function OuterChildren(a: Arena, cs: seq<FlowerId>, zb: seq<FlowerId>): (r: seq<FlowerId>)
    requires WellFormed(a) && AllBelow(cs, |a.flowers|)
    ensures AllBelow(r, |a.flowers|) && IsSubsequence(r, cs)
    ensures forall x :: x in r <==> x in cs && x < |a.flowers| && BlueStem(a, x) !in zb
    decreases |cs|
  {
    if cs == [] then []
    else
      assert cs == [cs[0]] + cs[1..];
      var rest := OuterChildren(a, cs[1..], zb);
      if BlueStem(a, cs[0]) !in zb then [cs[0]] + rest else rest
  }

  /**
   * The children of all the subflowers, in order.  The source filters each
   * subflower's children in turn (Source/Actions.cpp:411-419); filtering this list
   * once gives the same list.
   */
  function ChildrenOf(a: Arena, subs: seq<FlowerId>): (r: seq<FlowerId>)
    requires WellFormed(a) && AllBelow(subs, |a.flowers|)
    ensures AllBelow(r, |a.flowers|)
    decreases |subs|
  {
    if subs == [] then []
    else
      assert subs[0] in subs;
      a.flowers[subs[0]].children + ChildrenOf(a, subs[1..])
  }

  /** Edge `j` leaves Z: its first or its last blue endpoint is not one of Z's vertices `zb`. */
  predicate Outgoing(a: Arena, j: EdgeId, zb: seq<FlowerId>)
    requires j < |a.edges| && a.edges[j].blueFlowers != []
  {
    var bf := a.edges[j].blueFlowers;
    !(bf[0] in zb && bf[|bf| - 1] in zb)
  }

  /** The edges in `es` that leave Z (Source/Actions.cpp:422-433 for one subflower). */
  function OuterEdges(a: Arena, es: seq<EdgeId>, zb: seq<FlowerId>): (r: seq<EdgeId>)
    requires WellFormed(a) && AllBelow(es, |a.edges|)
    ensures AllBelow(r, |a.edges|) && IsSubsequence(r, es)
    ensures forall j :: j in r <==> j in es && j < |a.edges| && Outgoing(a, j, zb)
    decreases |es|
  {
    if es == [] then []
    else
      assert es == [es[0]] + es[1..];
      var rest := OuterEdges(a, es[1..], zb);
      if Outgoing(a, es[0], zb) then [es[0]] + rest else rest
  }

  /** The edges of all the subflowers, in order (Source/Actions.cpp:422-433 filters each in turn). */
  function EdgesOf(a: Arena, subs: seq<FlowerId>): (r: seq<EdgeId>)
    requires WellFormed(a) && AllBelow(subs, |a.flowers|)
    ensures AllBelow(r, |a.edges|)
    decreases |subs|
  {
    if subs == [] then []
    else
      assert subs[0] in subs;
      a.flowers[subs[0]].edges + EdgesOf(a, subs[1..])
  }

  /** `k` copies of `x`. */
  function Copies(x: FlowerId, k: nat): (r: seq<FlowerId>)
    ensures |r| == k && forall i :: 0 <= i < k ==> r[i] == x
  {
    if k == 0 then [] else [x] + Copies(x, k - 1)
  }

  /**
   * Source/Actions.cpp:431 for every edge in `es`: `z` joins the edge's flower list,
   * once per time the edge is listed.
   */
  function AttachEdges(a: Arena, es: seq<EdgeId>, z: FlowerId): (r: Arena)
    requires WellFormed(a) && AllBelow(es, |a.edges|) && z < |a.flowers|
    ensures WellFormed(r) && r.flowers == a.flowers && |r.edges| == |a.edges|
    ensures forall j :: 0 <= j < |a.edges| ==>
              r.edges[j] == a.edges[j].(flowers := a.edges[j].flowers + Copies(z, multiset(es)[j]))
    decreases |es|
  {
    if es == [] then a
    else
      var j := es[0];
      assert es == [j] + es[1..];
      var b := SetEdgeFlowers(a, j, a.edges[j].flowers + [z]);
      var r := AttachEdges(b, es[1..], z);
      assert r.edges[j].flowers == a.edges[j].flowers + Copies(z, multiset(es)[j]) by {
        assert Copies(z, multiset(es)[j]) == [z] + Copies(z, multiset(es[1..])[j]);
      }
      r
  }

  /** Source/Actions.cpp:437-439: every flower in `cs` takes `z` as its parent. */
  function AdoptAll(a: Arena, cs: seq<FlowerId>, z: FlowerId): (r: Arena)
    requires WellFormed(a) && AllBelow(cs, |a.flowers|) && z < |a.flowers|
    ensures WellFormed(r) && |r.flowers| == |a.flowers| && r.edges == a.edges
    ensures forall x :: 0 <= x < |a.flowers| ==>
              r.flowers[x] == if x in cs then a.flowers[x].(parent := Some(z)) else a.flowers[x]
    decreases |cs|
  {
    if cs == [] then a
    else
      assert cs == [cs[0]] + cs[1..];
      AdoptAll(SetParent(a, cs[0], Some(z)), cs[1..], z)
  }

  /** Source/Actions.cpp:443-448: every subflower becomes internal, with no parent and no children. */
  function Retire(a: Arena, subs: seq<FlowerId>): (r: Arena)
    requires WellFormed(a) && AllBelow(subs, |a.flowers|)
    ensures WellFormed(r) && |r.flowers| == |a.flowers| && r.edges == a.edges
    ensures forall x :: 0 <= x < |a.flowers| ==>
              r.flowers[x] == if x in subs then a.flowers[x].(kind := Internal, parent := None, children := [])
                              else a.flowers[x]
    decreases |subs|
  {
    if subs == [] then a
    else
      var x := subs[0];
      assert subs == [x] + subs[1..];
      var b := SetFlower(a, x, a.flowers[x].(kind := Internal, parent := None, children := []));
      Retire(b, subs[1..])
  }

  /** The plan's ids are in range and its cycle starts with W. */
  predicate PlanFits(a: Arena, pl: CreatePlan) {
    pl.w < |a.flowers| && AllBelow(pl.subs, |a.flowers|) && pl.subs != [] && pl.subs[0] == pl.w
  }

  /**
   * Source/Actions.cpp:364 and 390-398: the edge becomes full-blocking, Z is created
   * with W's parent and W as its stem, and takes W's place among the parent's children.
   */
  function Prepare(a: Arena, e: EdgeId, pl: CreatePlan): (r: Arena)
    requires WellFormed(a) && e < |a.edges| && PlanFits(a, pl)
    ensures WellFormed(r) && |r.flowers| == |a.flowers| + 1 && |r.edges| == |a.edges|
    ensures r.flowers[|a.flowers|] == NewFlower().(subFlowers := pl.subs, stem := Some(pl.w), parent := a.flowers[pl.w].parent)
    ensures forall x :: 0 <= x < |a.flowers| ==>
              r.flowers[x] == if a.flowers[pl.w].parent == Some(x)
                              then a.flowers[x].(children := RemoveAll<FlowerId>(a.flowers[x].children, pl.w) + [|a.flowers|])
                              else a.flowers[x]
    ensures forall j :: 0 <= j < |a.edges| ==>
              r.edges[j] == if j == e then a.edges[j].(kind := FullBlocking) else a.edges[j]
  {
    var n := |a.flowers|;
    var a1 := SetEdgeKind(a, e, FullBlocking);
    var z := NewFlower().(subFlowers := pl.subs, stem := Some(pl.w), parent := a.flowers[pl.w].parent);
    var a2 := AddFlower(a1, z);
    ReplaceChild(a2, z.parent, pl.w, n)
  }

  /**
   * Source/Actions.cpp:411-448 on the arena `b` whose last flower is Z: Z collects the
   * outer children and the outgoing edges of its subflowers, joins those edges, adopts
   * those children, and the subflowers retire.
   */
  function Populate(b: Arena, subs: seq<FlowerId>, z: nat): (r: Arena)
    requires WellFormed(b) && |b.flowers| == z + 1 && AllBelow(subs, z)
    requires AllBelow(ChildrenOf(b, subs), z)
    ensures WellFormed(r) && |r.flowers| == |b.flowers| && |r.edges| == |b.edges|
    ensures var zb := BlueSubFlowers(b, z);
            Installed(b, subs, OuterChildren(b, ChildrenOf(b, subs), zb), OuterEdges(b, EdgesOf(b, subs), zb), r)
  {
    var zb := BlueSubFlowers(b, z);
    var cs := ChildrenOf(b, subs);
    var zcs, zes := OuterChildren(b, cs, zb), OuterEdges(b, EdgesOf(b, subs), zb);
    AllBelowSubset(zcs, cs, z);
    Install(b, subs, zcs, zes)
  }

  /** `r` is `b` after Z, its last flower, took the children `zcs` and the edges `zes` and the subflowers retired. */
  ghost predicate Installed(b: Arena, subs: seq<FlowerId>, zcs: seq<FlowerId>, zes: seq<EdgeId>, r: Arena)
    requires |b.flowers| > 0
  {
    var z := |b.flowers| - 1;
    && |r.flowers| == |b.flowers| && |r.edges| == |b.edges|
    && r.flowers[z] == b.flowers[z].(children := zcs, edges := zes)
    && (forall x :: 0 <= x < z ==>
          r.flowers[x] == if x in subs then b.flowers[x].(kind := Internal, parent := None, children := [])
                          else if x in zcs then b.flowers[x].(parent := Some(z))
                          else b.flowers[x])
    && (forall j :: 0 <= j < |b.edges| ==>
          r.edges[j] == b.edges[j].(flowers := b.edges[j].flowers + Copies(z, multiset(zes)[j])))
  }

  /** The updates of Source/Actions.cpp:431-448 once Z's children and edges are known. */
  function Install(b: Arena, subs: seq<FlowerId>, zcs: seq<FlowerId>, zes: seq<EdgeId>): (r: Arena)
    requires WellFormed(b) && |b.flowers| > 0 && AllBelow(subs, |b.flowers| - 1)
    requires AllBelow(zcs, |b.flowers| - 1) && AllBelow(zes, |b.edges|)
    ensures WellFormed(r) && Installed(b, subs, zcs, zes, r)
  {
    var z := |b.flowers| - 1;
    var b1 := AttachEdges(b, zes, z);
    var b2 := SetFlower(b1, z, b1.flowers[z].(children := zcs, edges := zes));
    var b3 := AdoptAll(b2, zcs, z);
    Retire(b3, subs)
  }

  /**
   * `executeCreateFlower` with K = `k`, H = `h` and the tight edge `e`: the new blossom
   * Z is the last flower of the result.  `None` when K and H do not share a root.
   */
  function CreateFlower(a: Arena, e: EdgeId, k: FlowerId, h: FlowerId): (r: Option<Arena>)
    requires WellFormed(a) && e < |a.edges| && k < |a.flowers| && h < |a.flowers|
    ensures r.Some? <==> Root(a, k).Some? && Root(a, k) == Root(a, h)
    ensures r.Some? ==> WellFormed(r.value) && |r.value.flowers| == |a.flowers| + 1 && |r.value.edges| == |a.edges|
  {
    match PlanCreate(a, k, h)
    case None => None
    case Some(pl) =>
      CreateParentOutside(a, k, h, pl);
      Some(Build(a, e, pl))
  }

  /** Source/Actions.cpp:364 and 390-448 once the plan is known. */
  function Build(a: Arena, e: EdgeId, pl: CreatePlan): (r: Arena)
    requires WellFormed(a) && e < |a.edges| && PlanFits(a, pl)
    requires a.flowers[pl.w].parent.Some? ==> a.flowers[pl.w].parent.value !in pl.subs
    ensures WellFormed(r) && |r.flowers| == |a.flowers| + 1 && |r.edges| == |a.edges|
  {
    var b := Prepare(a, e, pl);
    ChildrenKept(a, b, pl.subs);
    Populate(b, pl.subs, |a.flowers|)
  }

  /** The children of flowers whose records did not change are the old ones, all below the old size. */
  lemma {:induction false} ChildrenKept(a: Arena, b: Arena, subs: seq<FlowerId>)
    requires WellFormed(a) && WellFormed(b) && |a.flowers| <= |b.flowers| && AllBelow(subs, |a.flowers|)
    requires forall i :: 0 <= i < |subs| ==> b.flowers[subs[i]] == a.flowers[subs[i]]
    ensures ChildrenOf(b, subs) == ChildrenOf(a, subs) && AllBelow(ChildrenOf(b, subs), |a.flowers|)
    decreases |subs|
  {
    if subs != [] {
      assert subs[0] in subs;
      ChildrenKept(a, b, subs[1..]);
    }
  }

  /** The edges of flowers whose records did not change are the old ones. */
  lemma {:induction false} EdgesKept(a: Arena, b: Arena, subs: seq<FlowerId>)
    requires WellFormed(a) && WellFormed(b) && |a.flowers| <= |b.flowers| && |a.edges| == |b.edges|
    requires AllBelow(subs, |a.flowers|)
    requires forall i :: 0 <= i < |subs| ==> b.flowers[subs[i]] == a.flowers[subs[i]]
    ensures EdgesOf(b, subs) == EdgesOf(a, subs)
    decreases |subs|
  {
    if subs != [] {
      assert subs[0] in subs;
      EdgesKept(a, b, subs[1..]);
    }
  }

  /** The outer children depend on the blue stems only. */
  lemma {:induction false} OuterChildrenFrame(a: Arena, b: Arena, cs: seq<FlowerId>, zb: seq<FlowerId>)
    requires WellFormed(a) && WellFormed(b) && |a.flowers| <= |b.flowers| && AllBelow(cs, |a.flowers|)
    requires forall x :: 0 <= x < |a.flowers| ==> BlueStem(a, x) == BlueStem(b, x)
    ensures OuterChildren(a, cs, zb) == OuterChildren(b, cs, zb)
    decreases |cs|
  {
    if cs != [] {
      assert cs == [cs[0]] + cs[1..];
      OuterChildrenFrame(a, b, cs[1..], zb);
    }
  }

  /** The outgoing edges depend on the blue endpoints only. */
  lemma {:induction false} OuterEdgesFrame(a: Arena, b: Arena, es: seq<EdgeId>, zb: seq<FlowerId>)
    requires WellFormed(a) && WellFormed(b) && |a.edges| == |b.edges| && AllBelow(es, |a.edges|)
    requires forall j :: 0 <= j < |a.edges| ==> a.edges[j].blueFlowers == b.edges[j].blueFlowers
    ensures OuterEdges(a, es, zb) == OuterEdges(b, es, zb)
    decreases |es|
  {
    if es != [] {
      assert es == [es[0]] + es[1..];
      OuterEdgesFrame(a, b, es[1..], zb);
    }
  }

  /** Blue stems are kept where subflowers and stems are. */
  lemma BlueStemsKept(a: Arena, b: Arena)
    requires WellFormed(a) && WellFormed(b) && |a.flowers| <= |b.flowers|
    requires forall x :: 0 <= x < |a.flowers| ==>
               a.flowers[x].subFlowers == b.flowers[x].subFlowers && a.flowers[x].stem == b.flowers[x].stem
    ensures forall x :: 0 <= x < |a.flowers| ==> BlueStem(a, x) == BlueStem(b, x)
  {
    forall x | 0 <= x < |a.flowers|
      ensures BlueStem(a, x) == BlueStem(b, x)
    {
      BlueFrame(a, b, x);
    }
  }

  // ---------------------------------------------------------------------------------------------
  // What a contraction does, stated over the arena before it.

  /** Z's vertices: those of its subflowers, in order. */
  function ZVertices(a: Arena, subs: seq<FlowerId>): (r: seq<FlowerId>)
    requires WellFormed(a) && AllBelow(subs, |a.flowers|)
    ensures forall x :: x in subs ==> BlueStem(a, x) in r
  {
    forall x | x in subs
      ensures BlueStem(a, x) in BlueOf(a, subs, |a.flowers|)
    {
      BlueStemInBlueOf(a, subs, |a.flowers|, x);
    }
    BlueOf(a, subs, |a.flowers|)
  }

  /** Z's children: the children of the subflowers whose blue stem lies outside Z. */
  function ZChildren(a: Arena, subs: seq<FlowerId>): (r: seq<FlowerId>)
    requires WellFormed(a) && AllBelow(subs, |a.flowers|)
    ensures AllBelow(r, |a.flowers|)
    ensures forall x :: x in r <==> x in ChildrenOf(a, subs) && x < |a.flowers| && BlueStem(a, x) !in ZVertices(a, subs)
    ensures forall x :: x in r ==> x !in subs
  {
    OuterChildren(a, ChildrenOf(a, subs), ZVertices(a, subs))
  }

  /** Z's edges: the edges of the subflowers with a blue endpoint outside Z. */
  function ZEdges(a: Arena, subs: seq<FlowerId>): (r: seq<EdgeId>)
    requires WellFormed(a) && AllBelow(subs, |a.flowers|)
    ensures AllBelow(r, |a.edges|)
    ensures forall j :: j in r <==> j in EdgesOf(a, subs) && j < |a.edges| && Outgoing(a, j, ZVertices(a, subs))
  {
    OuterEdges(a, EdgesOf(a, subs), ZVertices(a, subs))
  }

  /** What `Prepare` did to `a` to give `b`. */
  ghost predicate PreparedAs(a: Arena, e: EdgeId, pl: CreatePlan, b: Arena)
    requires PlanFits(a, pl)
  {
    var n, w := |a.flowers|, pl.w;
    && |b.flowers| == n + 1 && |b.edges| == |a.edges|
    && b.flowers[n] == NewFlower().(subFlowers := pl.subs, stem := Some(w), parent := a.flowers[w].parent)
    && (forall x :: 0 <= x < n ==>
          b.flowers[x] == if a.flowers[w].parent == Some(x)
                          then a.flowers[x].(children := RemoveAll<FlowerId>(a.flowers[x].children, w) + [n])
                          else a.flowers[x])
    && (forall j :: 0 <= j < |a.edges| ==> b.edges[j] == if j == e then a.edges[j].(kind := FullBlocking) else a.edges[j])
  }

  /** A successful contraction is `Build` on the plan. */
  lemma CreateBuilt(a: Arena, e: EdgeId, k: FlowerId, h: FlowerId, pl: CreatePlan, r: Arena)
    requires WellFormed(a) && e < |a.edges| && k < |a.flowers| && h < |a.flowers|
    requires PlanCreate(a, k, h) == Some(pl) && CreateFlower(a, e, k, h) == Some(r)
    ensures PlanShape(a, k, h, pl) && PlanFits(a, pl)
    ensures a.flowers[pl.w].parent.Some? ==> a.flowers[pl.w].parent.value !in pl.subs
    ensures r == Build(a, e, pl)
  {
    CreateParentOutside(a, k, h, pl);
  }

  /** The arena between the two stages of `Build`. */
  lemma BuildStages(a: Arena, e: EdgeId, pl: CreatePlan, r: Arena) returns (b: Arena)
    requires WellFormed(a) && e < |a.edges| && PlanFits(a, pl)
    requires a.flowers[pl.w].parent.Some? ==> a.flowers[pl.w].parent.value !in pl.subs
    requires r == Build(a, e, pl)
    ensures b == Prepare(a, e, pl) && AllBelow(ChildrenOf(b, pl.subs), |b.flowers| - 1)
    ensures |b.flowers| == |a.flowers| + 1 && r == Populate(b, pl.subs, |a.flowers|)
  {
    b := Prepare(a, e, pl);
    ChildrenKept(a, b, pl.subs);
  }

  lemma PrepareEffect(a: Arena, e: EdgeId, pl: CreatePlan, b: Arena)
    requires WellFormed(a) && e < |a.edges| && PlanFits(a, pl) && b == Prepare(a, e, pl)
    ensures WellFormed(b) && PreparedAs(a, e, pl, b)
  {
  }

  lemma PopulateEffect(b: Arena, subs: seq<FlowerId>, r: Arena, z: nat)
    requires WellFormed(b) && |b.flowers| == z + 1 && AllBelow(subs, z)
    requires AllBelow(ChildrenOf(b, subs), z) && r == Populate(b, subs, z)
    ensures WellFormed(r)
    ensures var zb := BlueSubFlowers(b, z);
            Installed(b, subs, OuterChildren(b, ChildrenOf(b, subs), zb), OuterEdges(b, EdgesOf(b, subs), zb), r)
  {
  }

  /** Z's children, edges and vertices as the source computes them are those of the arena before. */
  lemma GatherKept(a: Arena, e: EdgeId, pl: CreatePlan, b: Arena)
    requires WellFormed(a) && WellFormed(b) && e < |a.edges| && PlanFits(a, pl) && PreparedAs(a, e, pl, b)
    requires a.flowers[pl.w].parent.Some? ==> a.flowers[pl.w].parent.value !in pl.subs
    ensures var zb := BlueSubFlowers(b, |a.flowers|);
      && zb == ZVertices(a, pl.subs)
      && OuterChildren(b, ChildrenOf(b, pl.subs), zb) == ZChildren(a, pl.subs)
      && OuterEdges(b, EdgesOf(b, pl.subs), zb) == ZEdges(a, pl.subs)
  {
    var n := |a.flowers|;
    assert forall i :: 0 <= i < |pl.subs| ==> b.flowers[pl.subs[i]] == a.flowers[pl.subs[i]] by {
      forall i | 0 <= i < |pl.subs| ensures b.flowers[pl.subs[i]] == a.flowers[pl.subs[i]] {
        assert pl.subs[i] in pl.subs;
      }
    }
    assert forall x :: 0 <= x < n ==>
             a.flowers[x].subFlowers == b.flowers[x].subFlowers && a.flowers[x].stem == b.flowers[x].stem;
    BlueOfFrame(a, b, pl.subs, n);
    ChildrenKept(a, b, pl.subs);
    EdgesKept(a, b, pl.subs);
    BlueStemsKept(a, b);
    OuterChildrenFrame(a, b, ChildrenOf(a, pl.subs), ZVertices(a, pl.subs));
    OuterEdgesFrame(a, b, EdgesOf(a, pl.subs), ZVertices(a, pl.subs));
  }

  /** The two stages of a successful contraction, with Z's lists stated over the arena before. */
  lemma CreateSteps(a: Arena, e: EdgeId, k: FlowerId, h: FlowerId, pl: CreatePlan, r: Arena) returns (b: Arena)
    requires WellFormed(a) && e < |a.edges| && k < |a.flowers| && h < |a.flowers|
    requires PlanCreate(a, k, h) == Some(pl) && CreateFlower(a, e, k, h) == Some(r)
    ensures PlanFits(a, pl) && WellFormed(b) && WellFormed(r)
    ensures a.flowers[pl.w].parent.Some? ==> a.flowers[pl.w].parent.value !in pl.subs
    ensures PreparedAs(a, e, pl, b) && |b.flowers| > 0
    ensures Installed(b, pl.subs, ZChildren(a, pl.subs), ZEdges(a, pl.subs), r)
  {
    CreateBuilt(a, e, k, h, pl, r);
    b := BuildFacts(a, e, pl, r);
  }

  lemma BuildFacts(a: Arena, e: EdgeId, pl: CreatePlan, r: Arena) returns (b: Arena)
    requires WellFormed(a) && e < |a.edges| && PlanFits(a, pl)
    requires a.flowers[pl.w].parent.Some? ==> a.flowers[pl.w].parent.value !in pl.subs
    requires r == Build(a, e, pl)
    ensures WellFormed(b) && WellFormed(r) && PreparedAs(a, e, pl, b) && |b.flowers| > 0
    ensures Installed(b, pl.subs, ZChildren(a, pl.subs), ZEdges(a, pl.subs), r)
  {
    b := BuildStages(a, e, pl, r);
    PrepareEffect(a, e, pl, b);
    var z := |a.flowers|;
    PopulateEffect(b, pl.subs, r, z);
    GatherKept(a, e, pl, b);
    var zb := BlueSubFlowers(b, z);
    InstalledAgain(b, pl.subs, r, OuterChildren(b, ChildrenOf(b, pl.subs), zb), OuterEdges(b, EdgesOf(b, pl.subs), zb),
                   ZChildren(a, pl.subs), ZEdges(a, pl.subs));
  }

  lemma InstalledAgain(b: Arena, subs: seq<FlowerId>, r: Arena, cs: seq<FlowerId>, es: seq<EdgeId>,
                       zcs: seq<FlowerId>, zes: seq<EdgeId>)
    requires |b.flowers| > 0 && Installed(b, subs, cs, es, r) && cs == zcs && es == zes
    ensures Installed(b, subs, zcs, zes, r)
  {
  }

  /** The facts a contraction leaves behind, with the intermediate arena `b`. */
  ghost predicate Built(a: Arena, e: EdgeId, pl: CreatePlan, b: Arena, zcs: seq<FlowerId>, zes: seq<EdgeId>, r: Arena) {
    && PlanFits(a, pl) && PreparedAs(a, e, pl, b) && |b.flowers| > 0 && Installed(b, pl.subs, zcs, zes, r)
  }

  /** The intermediate arena of a successful contraction. */
  lemma CreateBuiltAs(a: Arena, e: EdgeId, k: FlowerId, h: FlowerId, pl: CreatePlan, r: Arena) returns (b: Arena)
    requires WellFormed(a) && e < |a.edges| && k < |a.flowers| && h < |a.flowers|
    requires PlanCreate(a, k, h) == Some(pl) && CreateFlower(a, e, k, h) == Some(r)
    ensures WellFormed(r) && Built(a, e, pl, b, ZChildren(a, pl.subs), ZEdges(a, pl.subs), r)
    ensures a.flowers[pl.w].parent.Some? ==> a.flowers[pl.w].parent.value !in pl.subs
  {
    b := CreateSteps(a, e, k, h, pl, r);
  }

  /**
   * The new blossom Z (the last flower): a fresh even flower whose subflowers are the
   * cycle, whose stem is W, which hangs from W's parent, and which holds exactly the
   * children of its subflowers that lie outside it and exactly their edges with an
   * endpoint outside it, in the order the subflowers list them.
   */
  lemma CreateNewFlower(a: Arena, e: EdgeId, k: FlowerId, h: FlowerId, pl: CreatePlan, r: Arena)
    requires WellFormed(a) && e < |a.edges| && k < |a.flowers| && h < |a.flowers|
    requires PlanCreate(a, k, h) == Some(pl) && CreateFlower(a, e, k, h) == Some(r)
    ensures |r.flowers| == |a.flowers| + 1 && AllBelow(pl.subs, |a.flowers|)
    ensures r.flowers[|a.flowers|] == NewFlower().(subFlowers := pl.subs, stem := Some(pl.w),
              parent := a.flowers[pl.w].parent, children := ZChildren(a, pl.subs), edges := ZEdges(a, pl.subs))
  {
    var b := CreateBuiltAs(a, e, k, h, pl, r);
    BuiltNewFlower(a, e, pl, b, ZChildren(a, pl.subs), ZEdges(a, pl.subs), r);
  }

  lemma BuiltNewFlower(a: Arena, e: EdgeId, pl: CreatePlan, b: Arena, zcs: seq<FlowerId>, zes: seq<EdgeId>, r: Arena)
    requires Built(a, e, pl, b, zcs, zes, r)
    ensures |r.flowers| == |a.flowers| + 1
    ensures r.flowers[|a.flowers|] == NewFlower().(subFlowers := pl.subs, stem := Some(pl.w),
              parent := a.flowers[pl.w].parent, children := zcs, edges := zes)
  {
  }

  /**
   * Z's vertices are those of its subflowers, and its blue stem is W's: the vertex
   * through which the cycle hangs in the tree.
   */
  lemma CreateBlossomVertices(a: Arena, e: EdgeId, k: FlowerId, h: FlowerId, pl: CreatePlan, r: Arena)
    requires WellFormed(a) && e < |a.edges| && k < |a.flowers| && h < |a.flowers|
    requires PlanCreate(a, k, h) == Some(pl) && CreateFlower(a, e, k, h) == Some(r)
    ensures WellFormed(r) && |r.flowers| == |a.flowers| + 1 && pl.w < |a.flowers| && AllBelow(pl.subs, |a.flowers|)
    ensures BlueSubFlowers(r, |a.flowers|) == ZVertices(a, pl.subs)
    ensures BlueStem(r, |a.flowers|) == BlueStem(a, pl.w)
  {
    var b := CreateBuiltAs(a, e, k, h, pl, r);
    BuiltVertices(a, e, pl, b, ZChildren(a, pl.subs), ZEdges(a, pl.subs), r);
  }

  lemma BuiltVertices(a: Arena, e: EdgeId, pl: CreatePlan, b: Arena, zcs: seq<FlowerId>, zes: seq<EdgeId>, r: Arena)
    requires WellFormed(a) && WellFormed(r) && Built(a, e, pl, b, zcs, zes, r)
    ensures |r.flowers| == |a.flowers| + 1
    ensures BlueSubFlowers(r, |a.flowers|) == ZVertices(a, pl.subs)
    ensures BlueStem(r, |a.flowers|) == BlueStem(a, pl.w)
  {
    var n := |a.flowers|;
    assert forall x :: 0 <= x < n ==>
             a.flowers[x].subFlowers == r.flowers[x].subFlowers && a.flowers[x].stem == r.flowers[x].stem;
    BlueOfFrame(a, r, pl.subs, n);
    BlueFrame(a, r, pl.w);
  }

  /**
   * Every subflower ends internal, without parent or children, and keeps everything
   * else: the cycle is dormant inside Z.
   */
  lemma CreateRetires(a: Arena, e: EdgeId, k: FlowerId, h: FlowerId, pl: CreatePlan, r: Arena)
    requires WellFormed(a) && e < |a.edges| && k < |a.flowers| && h < |a.flowers|
    requires PlanCreate(a, k, h) == Some(pl) && CreateFlower(a, e, k, h) == Some(r)
    ensures |r.flowers| == |a.flowers| + 1 && AllBelow(pl.subs, |a.flowers|)
    ensures forall i :: 0 <= i < |pl.subs| ==>
              r.flowers[pl.subs[i]] == a.flowers[pl.subs[i]].(kind := Internal, parent := None, children := [])
  {
    var b := CreateBuiltAs(a, e, k, h, pl, r);
    BuiltRetires(a, e, pl, b, ZChildren(a, pl.subs), ZEdges(a, pl.subs), r);
  }

  lemma BuiltRetires(a: Arena, e: EdgeId, pl: CreatePlan, b: Arena, zcs: seq<FlowerId>, zes: seq<EdgeId>, r: Arena)
    requires Built(a, e, pl, b, zcs, zes, r)
    ensures |r.flowers| == |a.flowers| + 1
    ensures forall i :: 0 <= i < |pl.subs| ==>
              r.flowers[pl.subs[i]] == a.flowers[pl.subs[i]].(kind := Internal, parent := None, children := [])
  {
    forall i | 0 <= i < |pl.subs|
      ensures r.flowers[pl.subs[i]] == a.flowers[pl.subs[i]].(kind := Internal, parent := None, children := [])
    {
      assert pl.subs[i] in pl.subs;
    }
  }

  /** Z takes W's place at the end of the children of W's parent. */
  lemma CreateReplacesW(a: Arena, e: EdgeId, k: FlowerId, h: FlowerId, pl: CreatePlan, r: Arena)
    requires WellFormed(a) && e < |a.edges| && k < |a.flowers| && h < |a.flowers|
    requires PlanCreate(a, k, h) == Some(pl) && CreateFlower(a, e, k, h) == Some(r)
    requires a.flowers[pl.w].parent.Some?
    ensures |r.flowers| == |a.flowers| + 1 && a.flowers[pl.w].parent.value < |a.flowers|
    ensures var p := a.flowers[pl.w].parent.value;
            r.flowers[p] == a.flowers[p].(children := RemoveAll<FlowerId>(a.flowers[p].children, pl.w) + [|a.flowers|],
                                         parent := if p in ZChildren(a, pl.subs) then Some(|a.flowers|) else a.flowers[p].parent)
  {
    var b := CreateBuiltAs(a, e, k, h, pl, r);
    BuiltReplacesW(a, e, pl, b, ZChildren(a, pl.subs), ZEdges(a, pl.subs), r);
  }

  lemma BuiltReplacesW(a: Arena, e: EdgeId, pl: CreatePlan, b: Arena, zcs: seq<FlowerId>, zes: seq<EdgeId>, r: Arena)
    requires WellFormed(a) && Built(a, e, pl, b, zcs, zes, r) && a.flowers[pl.w].parent.Some?
    requires a.flowers[pl.w].parent.value !in pl.subs
    ensures |r.flowers| == |a.flowers| + 1 && a.flowers[pl.w].parent.value < |a.flowers|
    ensures var p := a.flowers[pl.w].parent.value;
            r.flowers[p] == a.flowers[p].(children := RemoveAll<FlowerId>(a.flowers[p].children, pl.w) + [|a.flowers|],
                                         parent := if p in zcs then Some(|a.flowers|) else a.flowers[p].parent)
  {
  }

  /** The children Z collects take Z as their parent; none of them is a subflower. */
  lemma CreateAdopts(a: Arena, e: EdgeId, k: FlowerId, h: FlowerId, pl: CreatePlan, r: Arena)
    requires WellFormed(a) && e < |a.edges| && k < |a.flowers| && h < |a.flowers|
    requires PlanCreate(a, k, h) == Some(pl) && CreateFlower(a, e, k, h) == Some(r)
    ensures |r.flowers| == |a.flowers| + 1 && AllBelow(pl.subs, |a.flowers|)
    ensures forall x :: x in ZChildren(a, pl.subs) ==> x !in pl.subs && r.flowers[x].parent == Some(|a.flowers|)
    ensures forall x :: x in ZChildren(a, pl.subs) && a.flowers[pl.w].parent != Some(x) ==>
              x < |a.flowers| && r.flowers[x] == a.flowers[x].(parent := Some(|a.flowers|))
  {
    var b := CreateBuiltAs(a, e, k, h, pl, r);
    BuiltAdopts(a, e, pl, b, ZChildren(a, pl.subs), ZEdges(a, pl.subs), r);
  }

  lemma BuiltAdopts(a: Arena, e: EdgeId, pl: CreatePlan, b: Arena, zcs: seq<FlowerId>, zes: seq<EdgeId>, r: Arena)
    requires Built(a, e, pl, b, zcs, zes, r) && AllBelow(zcs, |a.flowers|)
    requires forall x :: x in zcs ==> x !in pl.subs
    ensures |r.flowers| == |a.flowers| + 1
    ensures forall x :: x in zcs ==> r.flowers[x].parent == Some(|a.flowers|)
    ensures forall x :: x in zcs && a.flowers[pl.w].parent != Some(x) ==>
              x < |a.flowers| && r.flowers[x] == a.flowers[x].(parent := Some(|a.flowers|))
  {
  }

  /** Flowers outside the cycle other than W's parent and Z's new children are untouched. */
  lemma CreateFrame(a: Arena, e: EdgeId, k: FlowerId, h: FlowerId, pl: CreatePlan, r: Arena)
    requires WellFormed(a) && e < |a.edges| && k < |a.flowers| && h < |a.flowers|
    requires PlanCreate(a, k, h) == Some(pl) && CreateFlower(a, e, k, h) == Some(r)
    ensures |r.flowers| == |a.flowers| + 1 && AllBelow(pl.subs, |a.flowers|)
    ensures forall x :: (0 <= x < |a.flowers| && x !in pl.subs && x !in ZChildren(a, pl.subs)
                         && a.flowers[pl.w].parent != Some(x)) ==> r.flowers[x] == a.flowers[x]
  {
    var b := CreateBuiltAs(a, e, k, h, pl, r);
    BuiltFrame(a, e, pl, b, ZChildren(a, pl.subs), ZEdges(a, pl.subs), r);
  }

  lemma BuiltFrame(a: Arena, e: EdgeId, pl: CreatePlan, b: Arena, zcs: seq<FlowerId>, zes: seq<EdgeId>, r: Arena)
    requires Built(a, e, pl, b, zcs, zes, r)
    ensures |r.flowers| == |a.flowers| + 1
    ensures forall x :: (0 <= x < |a.flowers| && x !in pl.subs && x !in zcs
                         && a.flowers[pl.w].parent != Some(x)) ==> r.flowers[x] == a.flowers[x]
  {
  }

  /**
   * The edges: the tight edge becomes full-blocking, and Z joins the flower list of
   * each of its edges; nothing else about an edge changes.
   */
  lemma CreateEdges(a: Arena, e: EdgeId, k: FlowerId, h: FlowerId, pl: CreatePlan, r: Arena)
    requires WellFormed(a) && e < |a.edges| && k < |a.flowers| && h < |a.flowers|
    requires PlanCreate(a, k, h) == Some(pl) && CreateFlower(a, e, k, h) == Some(r)
    ensures |r.edges| == |a.edges| && AllBelow(pl.subs, |a.flowers|)
    ensures forall j :: 0 <= j < |a.edges| ==>
              r.edges[j] == a.edges[j].(kind := if j == e then FullBlocking else a.edges[j].kind,
                                        flowers := a.edges[j].flowers + Copies(|a.flowers|, multiset(ZEdges(a, pl.subs))[j]))
  {
    var b := CreateBuiltAs(a, e, k, h, pl, r);
    BuiltEdges(a, e, pl, b, ZChildren(a, pl.subs), ZEdges(a, pl.subs), r);
  }

  lemma BuiltEdges(a: Arena, e: EdgeId, pl: CreatePlan, b: Arena, zcs: seq<FlowerId>, zes: seq<EdgeId>, r: Arena)
    requires Built(a, e, pl, b, zcs, zes, r)
    ensures |r.edges| == |a.edges|
    ensures forall j :: 0 <= j < |a.edges| ==>
              r.edges[j] == a.edges[j].(kind := if j == e then FullBlocking else a.edges[j].kind,
                                        flowers := a.edges[j].flowers + Copies(|a.flowers|, multiset(zes)[j]))
  {
  }

  /**
   * A contraction leaves Z as a burst expects its blossom: distinct, dormant
   * subflowers, and a parent and children outside the cycle.
   */
  lemma CreateThenBurstable(a: Arena, e: EdgeId, k: FlowerId, h: FlowerId, pl: CreatePlan, r: Arena)
    requires WellFormed(a) && e < |a.edges| && k < |a.flowers| && h < |a.flowers|
    requires PlanCreate(a, k, h) == Some(pl) && CreateFlower(a, e, k, h) == Some(r)
    ensures |r.flowers| == |a.flowers| + 1 && AllBelow(r.flowers[|a.flowers|].subFlowers, |r.flowers|)
    ensures var z := r.flowers[|a.flowers|];
      && Distinct(z.subFlowers) && Dormant(r, z.subFlowers)
      && (z.parent.Some? ==> z.parent.value !in z.subFlowers)
      && (forall c :: c in z.children ==> c !in z.subFlowers)
  {
    CreateDistinct(a, k, h, pl);
    var b := CreateBuiltAs(a, e, k, h, pl, r);
    BuiltBurstable(a, e, pl, b, ZChildren(a, pl.subs), ZEdges(a, pl.subs), r);
  }

  lemma BuiltBurstable(a: Arena, e: EdgeId, pl: CreatePlan, b: Arena, zcs: seq<FlowerId>, zes: seq<EdgeId>, r: Arena)
    requires Built(a, e, pl, b, zcs, zes, r) && Distinct(pl.subs) && AllBelow(zcs, |a.flowers|)
    requires forall x :: x in zcs ==> x !in pl.subs
    requires a.flowers[pl.w].parent.Some? ==> a.flowers[pl.w].parent.value !in pl.subs
    ensures |r.flowers| == |a.flowers| + 1 && AllBelow(r.flowers[|a.flowers|].subFlowers, |r.flowers|)
    ensures var z := r.flowers[|a.flowers|];
      && Distinct(z.subFlowers) && Dormant(r, z.subFlowers)
      && (z.parent.Some? ==> z.parent.value !in z.subFlowers)
      && (forall c :: c in z.children ==> c !in z.subFlowers)
  {
    BuiltNewFlower(a, e, pl, b, zcs, zes, r);
    BuiltRetires(a, e, pl, b, zcs, zes, r);
    BuiltAdopts(a, e, pl, b, zcs, zes, r);
    assert AllBelow(pl.subs, |r.flowers|) by {
      forall i | 0 <= i < |pl.subs| ensures pl.subs[i] < |r.flowers| {}
    }
  }
}
