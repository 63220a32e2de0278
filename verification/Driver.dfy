/**
 * The main loop of Source/Main.cpp: scan for the smallest step, move the powers, and
 * pick one of the four actions.  The list `flowers` the loop keeps (the vertices, then
 * every created blossom, minus the burst ones) and the pairing counter are part of the
 * state next to the arena.
 */
module Driver {
  import opened Wrappers
  import opened Seqs
  import opened Forest
  import opened Scheduler
  import opened Append
  import opened Contract
  import opened Burst
  import opened Collapse
  import opened Loader

  /** What the loop of Source/Main.cpp:69-170 carries from one iteration to the next. */
  datatype State = State(arena: Arena, flowers: seq<FlowerId>, pairings: nat)

  /** Every flower reference the loop holds is a flower of the arena. */
  predicate Valid(s: State) {
    WellFormed(s.arena) && AllBelow(s.flowers, |s.arena.flowers|)
  }

  /**
   * `testOneIsDumbbell` (Source/Main.cpp:11-19) on the two free flowers of an edge: the
   * loop over the edge's endpoints finds one in a dumbbell.
   */
  predicate OneIsDumbbell(a: Arena, ff: seq<FlowerId>): (r: bool)
    requires |ff| == 2 && AllBelow(ff, |a.flowers|)
    ensures r <==> exists i :: 0 <= i < |ff| && a.flowers[ff[i]].IsInDumbbell()
  {
    a.flowers[ff[0]].IsInDumbbell() || a.flowers[ff[1]].IsInDumbbell()
  }

  /**
   * `testAllRootEquality` (Source/Main.cpp:21-30): whether both flowers hang in the
   * same tree; `None` when a root walk never ends.
   */
  function AllRootEquality(a: Arena, ff: seq<FlowerId>): (r: Option<bool>)
    requires WellFormed(a) && |ff| == 2 && AllBelow(ff, |a.flowers|)
    ensures r.Some? <==> Root(a, ff[0]).Some? && Root(a, ff[1]).Some?
    ensures r == Some(true) <==> Root(a, ff[0]).Some? && Root(a, ff[0]) == Root(a, ff[1])
  {
    match (Root(a, ff[0]), Root(a, ff[1]))
    case (Some(x), Some(y)) => Some(x == y)
    case _ => None
  }

  /** The two scans of one iteration (Source/Main.cpp:71-75), each started from `nullptr`. */
  datatype Scan = Scan(edgeEps: Bound, minEdge: Option<EdgeId>, greenEps: Bound, minGreen: Option<FlowerId>)

  /** What the scans promise: a candidate exactly when the bound is finite, and it is in range. */
  predicate ScanFits(s: State, sc: Scan) {
    && (sc.edgeEps.Infinite? <==> sc.minEdge.None?)
    && (sc.greenEps.Infinite? <==> sc.minGreen.None?)
    && (sc.minEdge.Some? ==> sc.minEdge.value < |s.arena.edges|)
    && (sc.minGreen.Some? ==> sc.minGreen.value in s.flowers)
  }

  /** Which branch of the loop body runs. */
  datatype Decision = Stop | BurstStep(g: FlowerId) | EdgeStep(e: EdgeId)

  /**
   * Source/Main.cpp:79-90: stop when neither scan found anything, burst the green
   * flower when the edge bound is strictly the larger, and otherwise act on the edge.
   */
  function Decide(sc: Scan): (r: Decision)
    requires (sc.edgeEps.Infinite? <==> sc.minEdge.None?) && (sc.greenEps.Infinite? <==> sc.minGreen.None?)
    ensures r.Stop? <==> sc.minEdge.None? && sc.minGreen.None?
    ensures r.BurstStep? <==> !r.Stop? && Greater(sc.edgeEps, sc.greenEps)
    ensures r.BurstStep? ==> sc.minGreen == Some(r.g)
    ensures r.EdgeStep? ==> sc.minEdge == Some(r.e) && !Greater(sc.edgeEps, sc.greenEps)
  {
    if sc.minEdge.None? && sc.minGreen.None? then Stop
    else if Greater(sc.edgeEps, sc.greenEps) then BurstStep(sc.minGreen.value)
    else EdgeStep(sc.minEdge.value)
  }

  /** Equal finite bounds are not `>`: a tie goes to the edge. */
  lemma TieGoesToEdge(sc: Scan)
    requires (sc.edgeEps.Infinite? <==> sc.minEdge.None?) && (sc.greenEps.Infinite? <==> sc.minGreen.None?)
    requires sc.edgeEps.Finite? && sc.edgeEps == sc.greenEps
    ensures Decide(sc) == EdgeStep(sc.minEdge.value)
  {
  }

  /**
   * The step `std::min(minEdgeEpsilon, minGreenFlowerEpsilon)` of Source/Main.cpp:84;
   * finite once some scan found a candidate.
   */
  function StepSize(sc: Scan): (r: real)
    requires (sc.edgeEps.Infinite? <==> sc.minEdge.None?) && (sc.greenEps.Infinite? <==> sc.minGreen.None?)
    requires sc.minEdge.Some? || sc.minGreen.Some?
    ensures Min(sc.edgeEps, sc.greenEps) == Finite(r)
    ensures (sc.edgeEps.Finite? ==> r <= sc.edgeEps.value) && (sc.greenEps.Finite? ==> r <= sc.greenEps.value)
  {
    Min(sc.edgeEps, sc.greenEps).value
  }

  /** The three edge actions, in the order the loop tries them. */
  datatype EdgeAction = AppendCase | CreateCase | CollapseCase

  /**
   * Source/Main.cpp:91-117: append when a free endpoint is in a dumbbell, contract when
   * both lie in the same tree, collapse otherwise.  `None` when the edge does not touch
   * exactly two free flowers, which in the source means a read out of range when there
   * are fewer than two and a debug-build abort when there are more, or when a root
   * walk does not end.
   */
  function ClassifyEdge(a: Arena, e: EdgeId): (r: Option<EdgeAction>)
    requires WellFormed(a) && e < |a.edges|
    ensures r.Some? ==> |FreeFlowers(a, e)| == 2
    ensures r == Some(AppendCase) <==> |FreeFlowers(a, e)| == 2 && OneIsDumbbell(a, FreeFlowers(a, e))
    ensures r == Some(CreateCase) <==> |FreeFlowers(a, e)| == 2 && !OneIsDumbbell(a, FreeFlowers(a, e))
                                       && AllRootEquality(a, FreeFlowers(a, e)) == Some(true)
    ensures r == Some(CollapseCase) <==> |FreeFlowers(a, e)| == 2 && !OneIsDumbbell(a, FreeFlowers(a, e))
                                         && AllRootEquality(a, FreeFlowers(a, e)) == Some(false)
  {
    var ff := FreeFlowers(a, e);
    if |ff| != 2 then None
    else if OneIsDumbbell(a, ff) then Some(AppendCase)
    else match AllRootEquality(a, ff)
      case None => None
      case Some(same) => Some(if same then CreateCase else CollapseCase)
  }

  /** How an iteration ends: the loop exits, the source would crash or hang, or it goes on. */
  datatype Outcome = Stopped(final: State) | Crashed | Continued(next: State)

  /**
   * One iteration of the loop, given the results of its two scans: the state after
   * the chosen action, with the flower list and the pairing counter kept as
   * Source/Main.cpp:87-117 keeps them.
   */
  function Act(s: State, sc: Scan): (r: Outcome)
    requires Valid(s) && ScanFits(s, sc)
    ensures r.Stopped? <==> Decide(sc).Stop?
    ensures r.Stopped? ==> r.final == s
    ensures r.Continued? ==> Valid(r.next) && |r.next.arena.edges| == |s.arena.edges|
  {
    match Decide(sc)
    case Stop => Stopped(s)
    case BurstStep(g) => BurstOutcome(s, StepSize(sc), g)
    case EdgeStep(e) => EdgeOutcome(s, StepSize(sc), e)
  }

  /**
   * `applyEpsilon` over the flower list (Source/Main.cpp:84): only powers move, so the
   * arena keeps its shape.
   */
  function Moved(s: State, eps: real): (a: Arena)
    requires Valid(s)
    ensures WellFormed(a) && |a.flowers| == |s.arena.flowers| && a.edges == s.arena.edges
    ensures SameShape(a, s.arena)
  {
    ApplyEpsilon(s.arena, eps, s.flowers)
  }

  /** Two arenas that differ in powers at most. */
  predicate SameShape(a: Arena, b: Arena) {
    && |a.flowers| == |b.flowers| && a.edges == b.edges
    && forall x :: 0 <= x < |a.flowers| ==> a.flowers[x] == b.flowers[x].(power := a.flowers[x].power)
  }

  /** Which edge action the loop picks does not depend on the powers. */
  lemma ClassifyFrame(a: Arena, b: Arena, e: EdgeId)
    requires WellFormed(a) && WellFormed(b) && SameShape(a, b) && e < |a.edges|
    ensures ClassifyEdge(a, e) == ClassifyEdge(b, e)
  {
    FreeOfFrame(a, b, a.edges[e].flowers);
    var ff := FreeFlowers(a, e);
    if |ff| == 2 {
      RootFrame(a, b, ff[0]);
      RootFrame(a, b, ff[1]);
    }
  }

  /**
   * Moving the powers first (Source/Main.cpp:84) does not change which edge action
   * the loop then picks: kinds, parents and edges stay as they were.
   */
  lemma ClassifyAfterMove(s: State, eps: real, e: EdgeId)
    requires Valid(s) && e < |s.arena.edges|
    ensures ClassifyEdge(Moved(s, eps), e) == ClassifyEdge(s.arena, e)
  {
    ClassifyFrame(Moved(s, eps), s.arena, e);
  }

  /** Source/Main.cpp:84-90: move the powers, burst `g`, and drop it from the flower list. */
  function BurstOutcome(s: State, eps: real, g: FlowerId): (r: Outcome)
    requires Valid(s) && g in s.flowers
    ensures !r.Stopped?
    ensures r.Continued? ==> Valid(r.next) && |r.next.arena.edges| == |s.arena.edges|
    ensures r.Continued? ==> g !in r.next.flowers && r.next.pairings == s.pairings
    ensures r.Continued? ==> forall y :: y != g ==> multiset(r.next.flowers)[y] == multiset(s.flowers)[y]
    ensures r.Continued? ==> |r.next.arena.flowers| == |s.arena.flowers|
  {
    var a := Moved(s, eps);
    match BurstFlower(a, g)
    case None => Crashed
    case Some(b) => Burned(s, b, g)
  }

  /** The list bookkeeping of Source/Main.cpp:89: every occurrence of `g` is erased. */
  function Burned(s: State, b: Arena, g: FlowerId): (r: Outcome)
    requires AllBelow(s.flowers, |b.flowers|)
    ensures r.Continued? && r.next.arena == b && r.next.pairings == s.pairings
    ensures g !in r.next.flowers && AllBelow(r.next.flowers, |b.flowers|)
    ensures forall y :: y != g ==> multiset(r.next.flowers)[y] == multiset(s.flowers)[y]
  {
    var fs := RemoveAll(s.flowers, g);
    AllBelowSubset(fs, s.flowers, |b.flowers|);
    Continued(State(b, fs, s.pairings))
  }

  /**
   * Source/Main.cpp:84 and 100-117: move the powers, then append, contract (the new
   * blossom joins the flower list) or collapse (one more pairing edge).
   */
  function EdgeOutcome(s: State, eps: real, e: EdgeId): (r: Outcome)
    requires Valid(s) && e < |s.arena.edges|
    ensures !r.Stopped?
    ensures r.Continued? ==> Valid(r.next) && |r.next.arena.edges| == |s.arena.edges|
    ensures r.Continued? ==> ClassifyEdge(Moved(s, eps), e).Some? && Booked(s, r.next, ClassifyEdge(Moved(s, eps), e).value)
  {
    var a := Moved(s, eps);
    var ff := FreeFlowers(a, e);
    match ClassifyEdge(a, e)
    case None => Crashed
    case Some(AppendCase) => AppendOutcome(s, a, e, ff)
    case Some(CreateCase) => CreateOutcome(s, a, e, ff[0], ff[1])
    case Some(CollapseCase) => CollapseOutcome(s, a, e, ff)
  }

  /**
   * How each edge action leaves the loop's bookkeeping: a contraction appends the new
   * blossom's id, a collapse counts one more pairing edge, an append changes neither.
   */
  predicate Booked(s: State, t: State, act: EdgeAction) {
    match act
    case AppendCase => t.flowers == s.flowers && t.pairings == s.pairings
                       && |t.arena.flowers| == |s.arena.flowers|
    case CreateCase => t.flowers == s.flowers + [|s.arena.flowers|] && t.pairings == s.pairings
                       && |t.arena.flowers| == |s.arena.flowers| + 1
    case CollapseCase => t.flowers == s.flowers && t.pairings == s.pairings + 1
                         && |t.arena.flowers| == |s.arena.flowers|
  }

  /** Source/Main.cpp:103-104. */
  function AppendOutcome(s: State, a: Arena, e: EdgeId, ff: seq<FlowerId>): (r: Outcome)
    requires Valid(s) && WellFormed(a) && |a.flowers| == |s.arena.flowers| && |a.edges| == |s.arena.edges|
    requires e < |a.edges| && |ff| == 2 && AllBelow(ff, |a.flowers|)
    requires forall f :: f in ff ==> a.flowers[f].IsFree()
    ensures !r.Stopped?
    ensures r.Continued? ==> Valid(r.next) && |r.next.arena.edges| == |s.arena.edges| && Booked(s, r.next, AppendCase)
  {
    match AppendDumbbell(a, e, ff)
    case None => Crashed
    case Some(b) => Continued(State(b, s.flowers, s.pairings))
  }

  /** Source/Main.cpp:109-110: the new blossom takes the next id and joins the list. */
  function CreateOutcome(s: State, a: Arena, e: EdgeId, k: FlowerId, h: FlowerId): (r: Outcome)
    requires Valid(s) && WellFormed(a) && |a.flowers| == |s.arena.flowers| && |a.edges| == |s.arena.edges|
    requires e < |a.edges| && k < |a.flowers| && h < |a.flowers|
    ensures !r.Stopped?
    ensures r.Continued? <==> CreateFlower(a, e, k, h).Some?
    ensures r.Continued? ==> Valid(r.next) && |r.next.arena.edges| == |s.arena.edges| && Booked(s, r.next, CreateCase)
  {
    match CreateFlower(a, e, k, h)
    case None => Crashed
    case Some(b) => Grown(s, b)
  }

  /** The list bookkeeping of Source/Main.cpp:110: the id the contraction used is appended. */
  function Grown(s: State, b: Arena): (r: Outcome)
    requires AllBelow(s.flowers, |s.arena.flowers|) && |b.flowers| == |s.arena.flowers| + 1
    ensures r.Continued? && r.next.arena == b && r.next.pairings == s.pairings
    ensures r.next.flowers == s.flowers + [|s.arena.flowers|] && AllBelow(r.next.flowers, |b.flowers|)
  {
    AllBelowConcat(s.flowers, [|s.arena.flowers|], |b.flowers|);
    Continued(State(b, s.flowers + [|s.arena.flowers|], s.pairings))
  }

  /** Source/Main.cpp:115-116. */
  function CollapseOutcome(s: State, a: Arena, e: EdgeId, ff: seq<FlowerId>): (r: Outcome)
    requires Valid(s) && WellFormed(a) && |a.flowers| == |s.arena.flowers| && |a.edges| == |s.arena.edges|
    requires e < |a.edges| && |ff| == 2 && AllBelow(ff, |a.flowers|)
    ensures !r.Stopped?
    ensures r.Continued? ==> Valid(r.next) && |r.next.arena.edges| == |s.arena.edges| && Booked(s, r.next, CollapseCase)
  {
    match CollapseTree(a, e, ff)
    case None => Crashed
    case Some(b) => Continued(State(b, s.flowers, s.pairings + 1))
  }

  /** When the loop picks the contraction, the contraction itself cannot fail. */
  lemma CreateChosenSucceeds(s: State, eps: real, e: EdgeId)
    requires Valid(s) && e < |s.arena.edges|
    requires ClassifyEdge(Moved(s, eps), e) == Some(CreateCase)
    ensures EdgeOutcome(s, eps, e).Continued?
    ensures Booked(s, EdgeOutcome(s, eps, e).next, CreateCase)
  {
    var a := Moved(s, eps);
    var ff := FreeFlowers(a, e);
    assert CreateFlower(a, e, ff[0], ff[1]).Some?;
  }

  /** The scans of Source/Main.cpp:71-75 over every edge and over the flower list. */
  method Step(s: State) returns (sc: Scan, r: Outcome)
    requires Valid(s)
    ensures ScanFits(s, sc) && r == Act(s, sc)
    ensures r.Stopped? <==> (forall j :: 0 <= j < |s.arena.edges| ==> !EdgeCandidate(s.arena, j))
                            && (forall k :: 0 <= k < |s.flowers| ==> !GreenCandidate(s.arena, s.flowers[k]))
    ensures sc.minEdge.Some? ==> EdgeCandidate(s.arena, sc.minEdge.value)
                                 && sc.edgeEps == Finite(EdgeRatio(s.arena, sc.minEdge.value))
    ensures sc.minGreen.Some? ==> GreenCandidate(s.arena, sc.minGreen.value)
                                  && sc.greenEps == Finite(s.arena.flowers[sc.minGreen.value].power)
  {
    var es := AllIds(|s.arena.edges|);
    var ee, me := FindMinEdgeEpsilon(s.arena, es, None);
    var ge, mg := FindMinGreenFlowerEpsilon(s.arena, s.flowers, None);
    sc := Scan(ee, me, ge, mg);
    if me.Some? {
      ghost var k: nat :| EarliestMinEdge(s.arena, es, |es|, k) && me == Some(es[k]) && ee.value == EdgeRatio(s.arena, es[k]);
    }
    if mg.Some? {
      ghost var k: nat :| EarliestMinGreen(s.arena, s.flowers, |s.flowers|, k) && mg == Some(s.flowers[k])
                          && ge.value == s.arena.flowers[s.flowers[k]].power;
    }
    assert ee.Infinite? <==> forall j :: 0 <= j < |s.arena.edges| ==> !EdgeCandidate(s.arena, j) by {
      if ee.Infinite? {
        forall j | 0 <= j < |s.arena.edges|
          ensures !EdgeCandidate(s.arena, j)
        {
          assert es[j] == j;
        }
      } else {
        ghost var k: nat :| EarliestMinEdge(s.arena, es, |es|, k);
        assert EdgeCandidate(s.arena, es[k]);
      }
    }
    r := Act(s, sc);
    assert r.Stopped? <==> me.None? && mg.None?;
    assert me.None? <==> ee.Infinite?;
    assert mg.None? <==> ge.Infinite?;
  }

  /**
   * The state the loop starts from (Source/Main.cpp:36-69): the loaded graph, the
   * list of every vertex in order, and no pairing edge counted yet.
   */
  function Initial(n: nat, ls: seq<EdgeLine>): (r: Option<State>)
    ensures r.Some? <==> forall k :: 0 <= k < |ls| ==> LineFits(ls[k], n)
    ensures r.Some? ==> Valid(r.value) && Loaded(n, ls, r.value.arena)
    ensures r.Some? ==> r.value.flowers == AllIds(n) && r.value.pairings == 0
  {
    match Load(n, ls)
    case None => None
    case Some(a) =>
      LoadWellFormed(n, ls);
      Some(State(a, AllIds(n), 0))
  }

  /** At the start every listed flower is a vertex, so only edges can bound the first step. */
  lemma InitialHasNoGreen(n: nat, ls: seq<EdgeLine>)
    requires Initial(n, ls).Some?
    ensures var s := Initial(n, ls).value;
      forall k :: 0 <= k < |s.flowers| ==> !GreenCandidate(s.arena, s.flowers[k])
  {
    var s := Initial(n, ls).value;
    forall k | 0 <= k < |s.flowers|
      ensures !s.arena.flowers[s.flowers[k]].IsGreen()
    {
      assert s.flowers[k] == k;
    }
  }

  /** The ids `0 .. n-1` in order: the edges as read, and the vertices as created. */
  function AllIds(n: nat): (r: seq<EdgeId>)
    ensures |r| == n && AllBelow(r, n)
    ensures forall j :: 0 <= j < n ==> r[j] == j
  {
    if n == 0 then [] else AllIds(n - 1) + [n - 1]
  }

  /**
   * The `FOREVER` loop, cut off after `fuel` iterations (`Crashed` then as well): it
   * exits only in a state where no edge and no listed green flower bounds the step.
   */
  method Run(s: State, fuel: nat) returns (r: Outcome, steps: nat)
    requires Valid(s)
    ensures steps <= fuel
    ensures r.Stopped? ==> Valid(r.final) && |r.final.arena.edges| == |s.arena.edges|
    ensures r.Stopped? ==> (forall j :: 0 <= j < |r.final.arena.edges| ==> !EdgeCandidate(r.final.arena, j))
                           && (forall k :: 0 <= k < |r.final.flowers| ==> !GreenCandidate(r.final.arena, r.final.flowers[k]))
  {
    var cur := s;
    steps := 0;
    while true
      invariant Valid(cur) && |cur.arena.edges| == |s.arena.edges| && steps <= fuel
      decreases fuel - steps
    {
      if steps == fuel {
        return Crashed, steps;
      }
      var sc, o := Step(cur);
      steps := steps + 1;
      match o
      case Stopped(f) => return o, steps;
      case Crashed => return Crashed, steps;
      case Continued(n) => cur := n;
    }
  }
}
