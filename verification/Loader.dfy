/**
 * The graph-building part of Source/Main.cpp: one blue flower per vertex, each edge
 * wired to its two endpoints, and the weight of the pairing that is printed at the end.
 */
module Loader {
  import opened Wrappers
  import opened Seqs
  import opened Forest
  import opened Reorder

  /** One edge of the input: its two vertex numbers (counted from 1) and its weight. */
  datatype EdgeLine = EdgeLine(u: int, v: int, weight: real)

  /** Source/Main.cpp:42-48: vertex `i + 1` becomes the fresh flower with id `i`. */
  function Vertices(n: nat): (r: seq<Flower>)
    ensures |r| == n
    ensures forall i :: 0 <= i < n ==> r[i] == NewFlower().(vertexId := i + 1)
  {
    if n == 0 then [] else Vertices(n - 1) + [NewFlower().(vertexId := n)]
  }

  /** Both vertex numbers of the line index the vertex vector `flowers[vertexId - 1]`. */
  predicate LineFits(l: EdgeLine, n: nat) {
    1 <= l.u <= n && 1 <= l.v <= n
  }

  /** The ids among `0 .. |ls|-1` whose line names vertex `x + 1`, once per endpoint, in input order. */
  function Incident(ls: seq<EdgeLine>, x: int): (r: seq<EdgeId>)
    ensures AllBelow(r, |ls|)
  {
    if ls == [] then []
    else
      var j := |ls| - 1;
      var rest := Incident(ls[..j], x);
      var here := Hits(ls[j], x, j);
      AllBelowConcat(rest, here, |ls|);
      rest + here
  }

  /** Edge `j` read from line `l`, once for each endpoint of it that is vertex `x + 1`. */
  function Hits(l: EdgeLine, x: int, j: EdgeId): (r: seq<EdgeId>)
    ensures AllBelow(r, j + 1)
  {
    (if l.u - 1 == x then [j] else []) + (if l.v - 1 == x then [j] else [])
  }

  /** `blueFlower->edges.push_back(edge)` for flower `x`. */
  function Attach(fs: seq<Flower>, x: FlowerId, j: EdgeId): (r: seq<Flower>)
    requires x < |fs|
    ensures |r| == |fs| && r[x] == fs[x].(edges := fs[x].edges + [j])
    ensures forall y :: 0 <= y < |fs| && y != x ==> r[y] == fs[y]
  {
    fs[x := fs[x].(edges := fs[x].edges + [j])]
  }

  /**
   * One pass of Source/Main.cpp:51-66: the new edge lists both endpoints as its flowers
   * and its blue flowers and is pushed onto each endpoint's edge list, the first
   * endpoint first.  `None` when a vertex number is out of range.
   */
  function Wire(a: Arena, l: EdgeLine): (r: Option<Arena>)
    ensures r.Some? <==> LineFits(l, |a.flowers|)
    ensures r.Some? ==> |r.value.flowers| == |a.flowers|
    ensures r.Some? ==> r.value.edges == a.edges + [Edge(Regular, l.weight, [l.u - 1, l.v - 1], [l.u - 1, l.v - 1])]
    ensures r.Some? ==> forall y :: 0 <= y < |a.flowers| ==>
              r.value.flowers[y] == a.flowers[y].(edges := a.flowers[y].edges + Hits(l, y, |a.edges|))
  {
    if !LineFits(l, |a.flowers|) then None
    else
      var j, x, y := |a.edges|, l.u - 1, l.v - 1;
      var fs := Attach(Attach(a.flowers, x, j), y, j);
      Some(Arena(fs, a.edges + [Edge(Regular, l.weight, [x, y], [x, y])]))
  }

  /**
   * Edge `j` is wired as line `j` says, and vertex `x + 1` is a fresh blue flower whose
   * edge list is `Incident(ls, x)`.
   */
  predicate Loaded(n: nat, ls: seq<EdgeLine>, a: Arena) {
    && |a.flowers| == n && |a.edges| == |ls|
    && (forall j :: 0 <= j < |ls| ==>
          (LineFits(ls[j], n) && a.edges[j] == Edge(Regular, ls[j].weight, [ls[j].u - 1, ls[j].v - 1], [ls[j].u - 1, ls[j].v - 1])))
    && (forall x :: 0 <= x < n ==> a.flowers[x] == NewFlower().(vertexId := x + 1, edges := Incident(ls, x)))
  }

  /** The arena after reading the `n` vertices and the edges `ls` (Source/Main.cpp:42-67). */
  function Load(n: nat, ls: seq<EdgeLine>): (r: Option<Arena>)
    ensures r.Some? <==> forall k :: 0 <= k < |ls| ==> LineFits(ls[k], n)
    ensures r.Some? ==> Loaded(n, ls, r.value)
  {
    if ls == [] then Some(Arena(Vertices(n), []))
    else
      var m := |ls| - 1;
      match Load(n, ls[..m])
      case None => None
      case Some(a) =>
        LoadStep(n, ls, a);
        Wire(a, ls[m])
  }

  /** Wiring line `|ls| - 1` on top of the first lines extends what they loaded. */
  lemma LoadStep(n: nat, ls: seq<EdgeLine>, a: Arena)
    requires ls != [] && Loaded(n, ls[..|ls| - 1], a)
    ensures Wire(a, ls[|ls| - 1]).Some? ==> Loaded(n, ls, Wire(a, ls[|ls| - 1]).value)
  {
    var m := |ls| - 1;
    if Wire(a, ls[m]).Some? {
      var b := Wire(a, ls[m]).value;
      forall j | 0 <= j < |ls|
        ensures LineFits(ls[j], n)
        ensures b.edges[j] == Edge(Regular, ls[j].weight, [ls[j].u - 1, ls[j].v - 1], [ls[j].u - 1, ls[j].v - 1])
      {
        if j < m {
          assert ls[..m][j] == ls[j];
        }
      }
      forall x | 0 <= x < n
        ensures b.flowers[x] == NewFlower().(vertexId := x + 1, edges := Incident(ls, x))
      {
        assert Incident(ls, x) == Incident(ls[..m], x) + Hits(ls[m], x, m);
      }
    }
  }

  /** A loaded graph satisfies every reference invariant of the forest. */
  lemma LoadWellFormed(n: nat, ls: seq<EdgeLine>)
    requires Load(n, ls).Some?
    ensures WellFormed(Load(n, ls).value)
  {
    var a := Load(n, ls).value;
    forall x | 0 <= x < n
      ensures FlowerRefsOk(a.flowers[x], x, n, |ls|)
    {
      assert a.flowers[x] == NewFlower().(vertexId := x + 1, edges := Incident(ls, x));
    }
    forall j | 0 <= j < |ls|
      ensures EdgeRefsOk(a.edges[j], n)
    {
      assert LineFits(ls[j], n);
    }
  }

  /** Edge `j` is in vertex `x + 1`'s list exactly when line `j` names that vertex. */
  lemma {:induction false} IncidentMembership(ls: seq<EdgeLine>, x: int, j: int)
    ensures j in Incident(ls, x) <==> 0 <= j < |ls| && (ls[j].u - 1 == x || ls[j].v - 1 == x)
    decreases |ls|
  {
    if ls != [] {
      var m := |ls| - 1;
      IncidentMembership(ls[..m], x, j);
      assert Incident(ls, x) == Incident(ls[..m], x) + Hits(ls[m], x, m);
      assert 0 <= j < m ==> ls[..m][j] == ls[j];
    }
  }

  /** Vertex lists hold their edges in the order the edges were read. */
  lemma {:induction false} IncidentOrdered(ls: seq<EdgeLine>, x: int)
    ensures forall p, q :: 0 <= p < q < |Incident(ls, x)| ==> Incident(ls, x)[p] <= Incident(ls, x)[q]
    decreases |ls|
  {
    if ls != [] {
      var m := |ls| - 1;
      IncidentOrdered(ls[..m], x);
      assert AllBelow(Incident(ls[..m], x), m);
    }
  }

  /** The wiring is symmetric: a vertex lists an edge exactly when the edge lists the vertex. */
  lemma LoadSymmetric(n: nat, ls: seq<EdgeLine>, x: FlowerId, j: EdgeId)
    requires Load(n, ls).Some? && x < n && j < |ls|
    ensures j in Load(n, ls).value.flowers[x].edges <==> x in Load(n, ls).value.edges[j].blueFlowers
  {
    IncidentMembership(ls, x, j);
  }

  // ---------------------------------------------------------------------------------------------
  // The output weight (Source/Main.cpp:181-188).

  /** Total weight of the full-in-pairing edges among `es`. */
  function PairingWeight(es: seq<Edge>): real {
    if es == [] then 0.0
    else (if es[0].kind == FullInPairing then es[0].weight else 0.0) + PairingWeight(es[1..])
  }

  /**
   * What the program prints: the sum over the reversed edge vector, which is the
   * weight of the pairing edges in any order.
   */
  function OutputWeight(a: Arena): (r: real)
    ensures r == PairingWeight(a.edges)
  {
    OutputWeightInOrder(a.edges);
    PairingWeight(Reverse(a.edges))
  }

  lemma {:induction false} PairingWeightConcat(xs: seq<Edge>, ys: seq<Edge>)
    ensures PairingWeight(xs + ys) == PairingWeight(xs) + PairingWeight(ys)
    decreases |xs|
  {
    if xs == [] {
      assert xs + ys == ys;
    } else {
      assert (xs + ys)[0] == xs[0] && (xs + ys)[1..] == xs[1..] + ys;
      PairingWeightConcat(xs[1..], ys);
    }
  }

  /** Reversing the vector before summing does not change the printed weight. */
  lemma {:induction false} OutputWeightInOrder(es: seq<Edge>)
    ensures PairingWeight(Reverse(es)) == PairingWeight(es)
    decreases |es|
  {
    if es != [] {
      var m := |es| - 1;
      assert Reverse(es) == [es[m]] + Reverse(es[..m]);
      PairingWeightConcat([es[m]], Reverse(es[..m]));
      OutputWeightInOrder(es[..m]);
      assert es == es[..m] + [es[m]];
      PairingWeightConcat(es[..m], [es[m]]);
    }
  }

  /** Only full-in-pairing edges count: with nonnegative weights, so is the sum; and it is at most the total. */
  lemma {:induction false} PairingWeightBounds(es: seq<Edge>)
    requires forall j :: 0 <= j < |es| ==> es[j].weight >= 0.0
    ensures 0.0 <= PairingWeight(es) <= TotalWeight(es)
    ensures (forall j :: 0 <= j < |es| ==> es[j].kind != FullInPairing) ==> PairingWeight(es) == 0.0
    decreases |es|
  {
    if es != [] {
      PairingWeightBounds(es[1..]);
    }
  }

  /** Total weight of every edge. */
  function TotalWeight(es: seq<Edge>): real {
    if es == [] then 0.0 else es[0].weight + TotalWeight(es[1..])
  }
}
