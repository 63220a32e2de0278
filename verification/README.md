# Edmonds' weighted blossom matching, modelled in Dafny

This project models the core of a C++ implementation of Edmonds' maximum-weight
matching algorithm in its primal-dual "flowers" form. Three kinds of object make up
the forest:

- A **blue flower** is a vertex.
- A **green flower** is a blossom: an odd cycle of subflowers contracted into one node.
- An **edge** has a weight and a kind: regular, full-blocking or full-in-pairing.

Every free flower lives in one of two places. It is either in an alternating tree, as
an even or an odd tree flower, or in a dumbbell, which is a matched pair that hangs
outside the trees. A flower swallowed by a blossom is internal.

Each round of the main loop does the following:

1. It scans the edges and the green flowers for the largest step `eps` that the dual
   powers can take.
2. It moves the powers by that step.
3. It then does one of four things:
   - bursts a green flower whose power dropped to zero;
   - appends a dumbbell to a tree;
   - contracts a new blossom from an edge that closes an odd cycle inside one tree;
   - collapses two trees along an augmenting path, which adds one pairing edge.

The program prints the total weight of the full-in-pairing edges at the end.

## How the model is built

- **The arena.** Raw addresses become ids into an arena: `Arena(flowers, edges)` holds
  immutable records, and a new flower takes the next free id. `Forest.WellFormed`
  states that every stored id is in range and that a blossom's subflowers are older
  than the blossom. That second fact makes the blossom recursions
  (`blueSubFlowers`, `blueStem`, `preprocessAlternatingPathEdges`) terminate by
  structure.
- **Failures.** Every action is a pure function that returns an `Option`. `None`
  marks the places where the program would dereference null, read past a vector,
  loop forever, or abort in its debug build.
- **Numbers.** `double` is modelled as exact `real`. The `DBL_MAX` sentinel of the
  scans becomes `Bound.Infinite`.
- **Modules.** They follow the source files:

| module | what it models |
|---|---|
| `Forest` | the flower and edge records and the queries of `Source/Types.cpp` |
| `Reorder` | `reorderFlowers` and its sixteen fixtures |
| `Scheduler` | the scans and `applyEpsilon` of `Source/Evaluation.cpp` |
| `EdgeOps` | the edge-kind swap and `setBlockingEdgeToRegular` |
| `Append`, `Burst`, `Contract`, `Collapse` | the four structural actions |
| `Loader`, `Driver` | graph construction, the dispatch rule, the main loop and the output sum of `Source/Main.cpp` |
| `Wrappers`, `Seqs` | shared helpers: `Option`, and sequence facts such as distinctness, filters and `std::remove` |

### Behaviour of the code that the model keeps

- `findMinEdgeEpsilon` also considers full edges. Any edge with positive padding and a
  positive even-minus-odd balance is a candidate (Source/Evaluation.cpp:37).
- `findMinGreenFlowerEpsilon` accepts every free green flower of any free kind, odd
  tree flowers and others alike (Source/Evaluation.cpp:59).
- `Source/Evaluation.cpp` names the kinds `TREE_EVEN` and `TREE_ODD`, which
  `Source/Types.h` does not declare. They are read as `EVEN_IN_TREE` and
  `ODD_IN_TREE`.
- The burst's segment loop gives `ODD_IN_TREE` to the subflowers at even positions of
  the reordered cycle and `EVEN_IN_TREE` to those at odd positions
  (Source/Actions.cpp:308). `Burst.SegmentRecord` and `Burst.BurstKinds` state this
  parity, so the upper subflower, at position 0, ends odd.
- `reorderFlowers` is modelled for every length. Its odd-end guarantee is stated
  under the hypothesis that the length is odd, instead of being demanded of callers.

## Model

| member | source | states |
|---|---|---|
| Forest.NewFlowerFacts | Source/Types.cpp:8-14 | a new flower is even in its own one-flower tree: power 0, no parent, no stem, free, blue, its own root and its own blue stem, and it has no vertices below it |
| Forest.NewEdgeFacts | Source/Types.cpp:85-88 | a new edge is regular, has weight 0 and touches no flower |
| Forest.KindPredicates | Source/Types.cpp:16-24 | `isFree` holds exactly for the even, odd and dumbbell kinds, and every dumbbell flower is free |
| Forest.Root | Source/Types.cpp:31-38 | the root is parentless; it exists exactly when some parent chain from the flower ends; every such chain ends at it |
| Forest.RootPathComplete | Source/Types.cpp:33-36 | any terminating parent chain is the walk that `root` performs |
| Forest.RootPathDistinct | Source/Types.cpp:33-36 | a terminating parent chain never visits a flower twice |
| Forest.RootPathFits | Source/Types.cpp:33-36 | a terminating parent chain has at most as many steps as there are flowers, so that bound never cuts a walk short |
| Forest.RootOfParentless | Source/Types.cpp:34 | a parentless flower is its own root |
| Forest.RootOfChild | Source/Types.cpp:34-35 | a flower and its parent have the same root |
| Forest.RootFrame | Source/Types.cpp:31-38 | the root depends on parent links only |
| Forest.BlueSubFlowers | Source/Types.cpp:56-69 | the result lists only blue flowers, all older than the blossom, and is empty when the flower has no subflowers |
| Forest.BlueOfAppend | Source/Types.cpp:59-67 | flattening the concatenation of two subflower lists gives the concatenation of the two flattenings |
| Forest.BlueOfAllBlue | Source/Types.cpp:64-66 | a list of blue flowers flattens to itself |
| Forest.BlueStem | Source/Types.cpp:71-78 | the result is blue and is reached from the flower along stem links |
| Forest.BlueStemUnique | Source/Types.cpp:74-76 | the first blue flower on the stem chain is the blue stem, so a blue flower is its own |
| Forest.BlueStemInside | Source/Types.cpp:71-78 | a blossom's blue stem is one of its vertices |
| Forest.BlueFrame | Source/Types.cpp:56-78 | both queries read only the subflower and stem fields |
| Forest.FindEdge | Source/Types.cpp:42-47 | the position of the first edge with the asked kind (and endpoint), with no match before it; `None` exactly when no edge matches |
| Forest.InPairingEdge | Source/Types.cpp:40-54 | the first incident full-in-pairing edge; `None` exactly when there is none |
| Forest.InPairingFrame | Source/Types.cpp:40-54 | the lookup reads the edges and the flower's own edge list only |
| Forest.FreeFlowers | Source/Types.cpp:90-111 | the order-preserving subsequence of the edge's flowers that are free: every occurrence of a free flower is kept and no other flower is |
| Forest.FreeOfFrame | Source/Types.cpp:94-99 | the filter depends on the free/internal status only |
| Reorder.ReorderFlowers | Source/Actions.cpp:16-48 | the result is a permutation of the input: a forward walk round the cycle from `start` when the run start..end is odd, a backward walk otherwise; the old start element lands at 0 and the old end element at the new end index; for an odd length the new end index is even |
| Reorder.Rotated | Source/Actions.cpp:34-39 | position `i` of the result holds old position `(s + i) mod n`, and the multiset is kept |
| Reorder.ReversePermutes | Source/Actions.cpp:28 | reversal keeps every element with its multiplicity |
| Reorder.MirroredOrder | Source/Actions.cpp:27-39 | rotating the reversed cycle to the mirrored start walks the original cycle backward from `start` |
| Reorder.MirroredEnd | Source/Actions.cpp:29-46 | on the mirrored order, the new end index walks back to the old end, and it is even when the length is odd |
| Reorder.ForwardEnd | Source/Actions.cpp:41-46 | on the forward order the new end index is even when the length is odd |
| Reorder.Fixture1 | Source/Actions.cpp:85-92 | fixture a1 on [1,2,3], s=0 e=0 |
| Reorder.Fixture2 | Source/Actions.cpp:93-100 | fixture a2 on [1,2,3], s=1 e=1 |
| Reorder.Fixture3 | Source/Actions.cpp:101-108 | fixture a3 on [1,2,3], s=2 e=2 |
| Reorder.Fixture4 | Source/Actions.cpp:109-116 | fixture a4 on [1,2,3], s=0 e=1 |
| Reorder.Fixture5 | Source/Actions.cpp:117-124 | fixture a5 on [1,2,3], s=1 e=0 |
| Reorder.Fixture6 | Source/Actions.cpp:125-132 | fixture a6 on [1,2,3], s=0 e=2 |
| Reorder.Fixture7 | Source/Actions.cpp:133-140 | fixture a7 on [1,2,3], s=2 e=0 |
| Reorder.Fixture8 | Source/Actions.cpp:141-148 | fixture a8 on [1..5], s=1 e=4 gives [2,1,5,4,3] and end 2 |
| Reorder.Fixture9 | Source/Actions.cpp:149-156 | fixture a9 on [1..5], s=4 e=1 gives [5,1,2,3,4] and end 2 |
| Reorder.Fixture10 | Source/Actions.cpp:157-164 | fixture a10 on [1..5], s=4 e=0 gives [5,4,3,2,1] and end 4 |
| Reorder.Fixture11 | Source/Actions.cpp:165-172 | fixture a11 on [1..5], s=2 e=2 gives [3,4,5,1,2] and end 0 |
| Reorder.Fixture12 | Source/Actions.cpp:173-180 | fixture a12 on [1..5], s=0 e=4 |
| Reorder.Fixture13 | Source/Actions.cpp:181-188 | fixture a13 on [1..5], s=4 e=0; the source repeats fixture a10 here, so the lemma repeats `Reorder.Fixture10` |
| Reorder.Fixture14 | Source/Actions.cpp:189-196 | fixture a14 on [1..5], s=4 e=2 |
| Reorder.Fixture15 | Source/Actions.cpp:197-204 | fixture a15 on [1..5], s=1 e=3 |
| Reorder.Fixture16 | Source/Actions.cpp:205-212 | fixture a16 on [1..5], s=1 e=0 |
| Scheduler.Min | Source/Main.cpp:84 | `std::min` returns one of its arguments, and that argument is not above either of them |
| Scheduler.FindMinEdgeEpsilon | Source/Evaluation.cpp:9-47 | the sentinel comes back exactly when no edge is a candidate, and then `minEdge` is left as it was; otherwise the result is the ratio of the earliest candidate with the least padding/balance ratio, and that edge is chosen |
| Scheduler.EdgeTotals | Source/Evaluation.cpp:18-34 | the inner loop yields the edge's weight minus the powers it touches, and its even-minus-odd balance |
| Scheduler.FindMinGreenFlowerEpsilon | Source/Evaluation.cpp:49-68 | the sentinel comes back exactly when no listed flower is free and green, and then `minGreen` is left as it was; otherwise the result is the least power among them, taken by the earliest flower holding it |
| Scheduler.ApplyEpsilon | Source/Evaluation.cpp:70-87 | each listed even tree flower gains `eps` and each listed odd tree flower loses it, once per listing; every other field of every flower, and every edge, is unchanged |
| Scheduler.ApplyEpsilonDirections | Source/Evaluation.cpp:78-85 | for a positive step, even flowers rise, odd flowers fall, and dumbbell and internal flowers are untouched |
| EdgeOps.SwappedFacts | Source/Actions.cpp:545-552 | the swap exchanges the two full kinds, fixes the regular kind and undoes itself |
| EdgeOps.SwapEdge | Source/Actions.cpp:545-552 | only the kind of the one edge changes |
| EdgeOps.SwapAll | Source/Actions.cpp:566-568 | swapping along a path leaves an edge swapped exactly when the path lists it an odd number of times; nothing but kinds changes |
| EdgeOps.SwapAllTwice | Source/Actions.cpp:566-568 | swapping along the same path twice restores the arena |
| EdgeOps.SetBlockingEdgeToRegular | Source/Actions.cpp:214-224 | exactly the full-blocking edges of the first flower that reach the second become regular; no other edge and no flower changes |
| Append.PairingPartner | Source/Actions.cpp:349-354 | the lower dumbbell flower is the free flower of the in-pairing edge other than the upper one; it exists exactly when that edge exists and touches two free flowers |
| Append.PartnerFrame | Source/Actions.cpp:349-354 | the partner lookup reads the edges, the flower's edge list and free/internal status only |
| Append.HangUpper | Source/Actions.cpp:335-347 | the edge becomes full-blocking, and the dumbbell end becomes an odd child of the tree end; no other flower changes |
| Append.HangLower | Source/Actions.cpp:356-359 | the partner becomes an even child of the dumbbell end; no other flower changes |
| Append.AppendDumbbell | Source/Actions.cpp:333-360 | it fails exactly when the dumbbell end has no partner; otherwise the edge becomes blocking, the dumbbell end is an odd child of the tree end, the partner is its even child, and nothing else changes |
| Append.HangEffect | Source/Actions.cpp:335-359 | the two hanging steps together have exactly that effect |
| Append.AppendJoinsTree | Source/Actions.cpp:333-360 | after the append, the partner's root is the root the tree end had |
| Burst.UpperSub | Source/Actions.cpp:246-251 | the first subflower the parent edge touches, or the last subflower when it touches none |
| Burst.PlanBurst | Source/Actions.cpp:228-276 | the look-ups succeed exactly when the blossom has a parent, a full-blocking parent edge, subflowers, a stem and a child; the cycle is walked round from the upper subflower, forward when the run from the upper subflower to the stem is odd and backward otherwise, which puts the upper subflower first and the stem at an even position for an odd cycle |
| Burst.ReorderDistinct | Source/Actions.cpp:275-278 | reordering a cycle of distinct subflowers lists each of them once |
| Burst.Adopt | Source/Actions.cpp:281-292 | the upper subflower replaces the blossom among the parent's children and takes the parent; no kind and no edge list changes |
| Burst.HangChild | Source/Actions.cpp:295-303 | the blossom's child hangs under the lower subflower |
| Burst.SegmentRecord | Source/Actions.cpp:306-316 | one pass of the segment loop gives odd kinds at even positions and even kinds at odd ones, and fills a missing parent or child from the neighbouring subflower; `None` exactly when that neighbour is out of range |
| Burst.SegmentFold | Source/Actions.cpp:306-316 | the segment loop keeps every existing link and every flower outside the segment, and succeeds when both ends of the segment are linked |
| Burst.SegmentFoldEffect | Source/Actions.cpp:306-316 | with distinct subflowers, each position of the segment ends with the record its own pass gave it |
| Burst.MarkDumbbell | Source/Actions.cpp:319-321 | every subflower after the segment becomes a dumbbell flower; nothing else changes |
| Burst.DetachFrom | Source/Actions.cpp:327-330 | the blossom leaves the flower list of each of its edges; no other edge changes |
| Burst.ClearBoth | Source/Actions.cpp:323-325 | the two clearing calls change only edge kinds, as `ClearedKind` says |
| Burst.Finish | Source/Actions.cpp:318-330 | after the segment loop, flowers change only in kind, and edges only in their cleared kinds and the removal of the blossom |
| Burst.BurstFlower | Source/Actions.cpp:226-331 | the burst fails exactly when a look-up fails; otherwise the arena stays well formed and keeps its size |
| Burst.BurstEdgeFlowers | Source/Actions.cpp:327-330 | after a burst the blossom is gone from every incident edge's flower list, and no other flower list changes |
| Burst.BurstEdgeKinds | Source/Actions.cpp:323-325 | after a burst, exactly the full-blocking edges at the two ends of the segment become regular |
| Burst.BurstKinds | Source/Actions.cpp:306-321 | along the segment the kinds alternate odd, even, …, and the rest of the cycle is in dumbbells |
| Burst.BurstKeepsOtherKinds | Source/Actions.cpp:226-331 | no flower outside the cycle changes kind |
| Burst.BurstFrees | Source/Actions.cpp:306-321 | every former subflower is free again, and for an odd cycle both ends of the segment are odd |
| Burst.BurstLinks | Source/Actions.cpp:281-316 | for a dormant cycle: the parent has the upper subflower in the blossom's place and keeps every other field; the blossom's child hangs under the lower subflower and keeps every other field; the segment is a parent/child chain down to the lower subflower; the dumbbell part is unlinked; each subflower keeps its record apart from its kind and its two links; every other flower outside the cycle is untouched |
| Contract.CommonPrefix | Source/Actions.cpp:380-388 | the length of the common leading part of the two lists: the lists agree up to it and differ just after |
| Contract.TailsMeet | Source/Actions.cpp:380-388 | equal leading parts of the two reversed root paths are equal trailing parts of the paths |
| Contract.PlanCreate | Source/Actions.cpp:364-408 | the look-ups succeed exactly when K and H have the same root; the plan then has the shape below |
| Contract.CreateLowest | Source/Actions.cpp:380-388 | W lies on both root paths, and no flower below W on either path lies on the other: W is the lowest common ancestor |
| Contract.CreateDistinct | Source/Actions.cpp:400-408 | the subflowers of the new blossom are all different |
| Contract.CreateCycleLinks | Source/Actions.cpp:400-408 | going round the subflowers, each link follows a tree edge except the one step from K to H, which the new edge makes |
| Contract.CreateParentOutside | Source/Actions.cpp:390-398 | W's parent, which the new blossom takes over, is not on the cycle |
| Contract.ReplaceChild | Source/Actions.cpp:393-398 | the new blossom takes W's place at the end of the parent's children; nothing else changes |
| Contract.OuterChildren | Source/Actions.cpp:411-419 | keeps exactly the children whose blue stem is not a vertex of the new blossom, in order |
| Contract.OuterEdges | Source/Actions.cpp:422-433 | keeps exactly the edges with an endpoint outside the new blossom, in order |
| Contract.AttachEdges | Source/Actions.cpp:431 | the new blossom joins the flower list of each edge, once per listing |
| Contract.AdoptAll | Source/Actions.cpp:437-439 | every collected child takes the new blossom as its parent; nothing else changes |
| Contract.Retire | Source/Actions.cpp:443-448 | every subflower becomes internal with no parent and no children; nothing else changes |
| Contract.Prepare | Source/Actions.cpp:364-398 | the edge becomes full-blocking, and the new blossom is created with W's parent and W as its stem, replacing W among that parent's children |
| Contract.CreateFlower | Source/Actions.cpp:362-453 | the contraction fails exactly when K and H have different roots; otherwise it adds one flower and keeps the arena well formed |
| Contract.CreateNewFlower | Source/Actions.cpp:390-448 | the new blossom is even. Its subflowers are the cycle and its stem is W. It hangs from W's parent. It holds exactly its subflowers' children and edges that reach outside it, in their order |
| Contract.CreateBlossomVertices | Source/Actions.cpp:411-433 | the new blossom's vertices are those of its subflowers, and its blue stem is W's |
| Contract.CreateRetires | Source/Actions.cpp:443-448 | every subflower ends internal, without parent or children, and keeps everything else |
| Contract.CreateReplacesW | Source/Actions.cpp:393-398 | the new blossom takes W's place at the end of W's parent's children; every other field of that parent is kept, except that it takes the new blossom as its own parent if it is among the adopted children |
| Contract.CreateAdopts | Source/Actions.cpp:437-439 | the children the new blossom collects take it as their parent, and none of them is a subflower; apart from W's parent, each adopted child keeps every other field |
| Contract.CreateFrame | Source/Actions.cpp:362-453 | no flower other than the subflowers, W's parent and the adopted children changes |
| Contract.CreateEdges | Source/Actions.cpp:364-433 | the tight edge becomes full-blocking, and the new blossom joins the flower list of each edge it holds; nothing else about any edge changes |
| Contract.CreateThenBurstable | Source/Actions.cpp:443-448 | the new blossom is what a burst expects: distinct, dormant subflowers, and a parent and children outside the cycle |
| Collapse.OutgoingSub | Source/Actions.cpp:463-470 | the first subflower whose edges hold the outgoing edge; `None` exactly when there is none |
| Collapse.Preprocess | Source/Actions.cpp:455-532 | for a blue flower the path is empty and the arena unchanged; for a blossom, its stem becomes the subflower holding the outgoing edge; only stems of nested flowers change; the path lists only full edges, as many full-blocking ones as full-in-pairing ones |
| Collapse.Arrange | Source/Actions.cpp:473-489 | the subflowers are permuted so the stem is first and the outgoing subflower is at the end index, which is even for an odd cycle |
| Collapse.Pairs | Source/Actions.cpp:491-520 | the pair loop changes only the stems of flowers nested inside the blossom, and lists only full edges, as many full-blocking ones as full-in-pairing ones |
| Collapse.PairStep | Source/Actions.cpp:492-520 | one pass of the pair loop fails when subflower A has no full-blocking edge to subflower B; otherwise it changes only nested stems and its edges balance blocking against pairing |
| Collapse.PairStepBalanced | Source/Actions.cpp:496-519 | the pass's path holds a full-blocking edge of A that reaches B, has at least two edges, and ends with a full-in-pairing edge |
| Collapse.Settle | Source/Actions.cpp:539-542 | a dismantled flower is a dumbbell member without parent or children |
| Collapse.Dismantle | Source/Actions.cpp:534-543 | it settles exactly the flowers it visits, a child-closed set that holds the flower; nothing else changes |
| Collapse.DismantleAll | Source/Actions.cpp:536-538 | the loop over the children settles a child-closed set holding every child |
| Collapse.DismantleSettlesTree | Source/Actions.cpp:534-543 | every flower below the dismantled flower ends settled |
| Collapse.Alternate | Source/Actions.cpp:566-568 | processing a flower's alternating path changes only stems and edge kinds; a blue flower is left as it was |
| Collapse.AlternateSwaps | Source/Actions.cpp:566-568 | the processing succeeds exactly when the path can be built; it then swaps the kind of each path edge listed an odd number of times, and only those, and the path is full and balanced |
| Collapse.NextOutgoing | Source/Actions.cpp:583-591 | the first full-blocking edge of the grandparent reaching the parent becomes a pairing edge and is the next outgoing edge, and the result says that an edge was raised; otherwise nothing changes and the loop variable ends on the last edge |
| Collapse.Walk | Source/Actions.cpp:561-601 | the walk changes only stems and edge kinds, and stops at the root of the flower it started from; it changes the kind of no edge off its flipped list, and only moves full edges between the blocking and the pairing kind |
| Collapse.WalkBegins | Source/Actions.cpp:566-581 | the flipped list starts with the flower's own alternating path; for a parentless flower that is all of it, otherwise the first climb's edges follow |
| Collapse.Climb | Source/Actions.cpp:575-598 | one step of the walk changes only stems and edge kinds, and moves to the grandparent |
| Collapse.ClimbEffect | Source/Actions.cpp:575-598 | the parent's pairing edge becomes full-blocking, the first full-blocking grandparent edge reaching the parent becomes full-in-pairing, and then the parent's alternating path is swapped: each edge ends with that kind, swapped when the path lists it an odd number of times; no other edge changes kind |
| Collapse.CollapseHalf | Source/Actions.cpp:557-603 | one half keeps the arena well formed and its size |
| Collapse.CollapseHalfFlips | Source/Actions.cpp:557-603 | one half changes edges in kind only, changes the kind of no edge off the walk's flipped list, and only moves full edges between the blocking and the pairing kind |
| Collapse.CollapseHalfFacts | Source/Actions.cpp:557-603 | one half ends at its flower's root and settles a child-closed set that holds the root; other flowers change in stems only |
| Collapse.CollapseHalfKeepsSettled | Source/Actions.cpp:557-603 | a half never unsettles a flower |
| Collapse.CollapseTree | Source/Actions.cpp:554-605 | the collapse keeps the arena well formed and its size |
| Collapse.CollapseTreeFlips | Source/Actions.cpp:554-605 | the collapse is the two halves in turn; edges change in kind only, the tight edge ends full, no other edge off the two flipped lists changes kind, and no edge but the tight one turns from regular to full or back |
| Collapse.CollapseSettlesFirstTree | Source/Actions.cpp:554-605 | the root of the first free flower and every flower below it end as dumbbell members without parent or children |
| Collapse.CollapseSettlesSecondTree | Source/Actions.cpp:554-605 | the same holds for the second tree, as found on the arena the first half left |
| Loader.Vertices | Source/Main.cpp:42-48 | vertex `i + 1` becomes a fresh flower with id `i` |
| Loader.Wire | Source/Main.cpp:51-66 | the new edge lists both endpoints as its flowers and as its blue flowers, and is pushed onto each endpoint's edge list; `None` exactly when a vertex number is out of range |
| Loader.Load | Source/Main.cpp:42-67 | loading succeeds exactly when every vertex number is in range. Each edge is then wired as its line says, and each vertex's edge list is the lines naming it, in input order |
| Loader.LoadWellFormed | Source/Main.cpp:42-67 | a loaded graph satisfies every reference invariant of the forest |
| Loader.IncidentMembership | Source/Main.cpp:56-64 | an edge is in a vertex's list exactly when its line names that vertex |
| Loader.IncidentOrdered | Source/Main.cpp:52-64 | vertex lists hold their edges in input order |
| Loader.LoadSymmetric | Source/Main.cpp:60-63 | a vertex lists an edge exactly when the edge lists the vertex among its blue flowers |
| Loader.OutputWeight | Source/Main.cpp:181-188 | the printed sum over the reversed edge vector is the weight of the full-in-pairing edges, summed in input order |
| Loader.OutputWeightInOrder | Source/Main.cpp:182 | reversing the edge vector does not change the sum |
| Loader.PairingWeightConcat | Source/Main.cpp:183-188 | the pairing weight of a concatenation is the sum of the parts' weights |
| Loader.PairingWeightBounds | Source/Main.cpp:183-188 | with non-negative weights, the sum is non-negative and at most the total weight; it is zero when no edge is in the pairing |
| Driver.OneIsDumbbell | Source/Main.cpp:11-19 | true exactly when one of the edge's two free flowers is in a dumbbell |
| Driver.AllRootEquality | Source/Main.cpp:21-30 | true exactly when both free flowers have the same root; `None` exactly when a root walk does not end |
| Driver.Decide | Source/Main.cpp:79-90 | stop exactly when neither scan found a candidate; burst exactly when the edge bound is strictly larger; otherwise act on the chosen edge |
| Driver.TieGoesToEdge | Source/Main.cpp:87 | equal finite bounds take the edge branch |
| Driver.StepSize | Source/Main.cpp:84 | the step is the smaller of the two bounds, finite once a scan found a candidate |
| Driver.ClassifyEdge | Source/Main.cpp:101-117 | append exactly when a free endpoint is in a dumbbell; otherwise contract exactly when both share a root, and collapse exactly when they do not |
| Driver.Moved | Source/Main.cpp:84 | moving the powers keeps everything but powers |
| Driver.ClassifyAfterMove | Source/Main.cpp:84-117 | moving the powers first does not change which edge action is picked |
| Driver.Act | Source/Main.cpp:79-117 | one iteration stops exactly when `Decide` says so, and then leaves the state as it was; otherwise the next state is valid and keeps every edge |
| Driver.BurstOutcome | Source/Main.cpp:84-90 | a burst removes every occurrence of the blossom from the flower list, keeps the other entries and the pairing count |
| Driver.EdgeOutcome | Source/Main.cpp:100-117 | after an edge action, append keeps the list and the count, contract appends the new blossom's id, and collapse adds one to the pairing count |
| Driver.CreateOutcome | Source/Main.cpp:109-110 | the contraction branch continues exactly when the contraction succeeds, and appends the new id to the list |
| Driver.CreateChosenSucceeds | Source/Main.cpp:109-110 | when the loop picks the contraction, the contraction cannot fail |
| Driver.Step | Source/Main.cpp:71-81 | the iteration stops exactly when no edge is a candidate and no listed flower is a free green flower; the chosen edge and flower are candidates with their bounds |
| Driver.Initial | Source/Main.cpp:36-70 | the start state exists exactly when every vertex number is in range: the loaded graph, every vertex listed in order, no pairing counted |
| Driver.InitialHasNoGreen | Source/Main.cpp:42-48 | at the start no listed flower is green, so only edges can bound the first step |
| Driver.Run | Source/Main.cpp:69-170 | when the loop exits, the state is valid, keeps every edge, and neither scan has a candidate |

## Left out

- Stream input and output are not modelled. The vertex and edge counts and numbers
  read from `std::cin` become parameters of `Loader.Load` (one `EdgeLine` per edge).
  The formatting and the printing of the pairing edges (Source/Main.cpp:190-200) are
  not modelled.
- The `ENABLE_DEBUG*` tracing blocks are left out. The debug-build aborts are modelled
  as failures, `None` or `Crashed`, in the same places as the release build's null
  dereferences, instead of as preconditions. That lets the dispatch model its error
  path.
- `new` and `delete` are not modelled. The arena hands out fresh ids. A burst
  blossom's record stays in the arena, but it leaves the loop's flower list, as the
  erase at Source/Main.cpp:89 does.
- `double` arithmetic is modelled as exact `real`: there is no IEEE-754 rounding, and
  the `DBL_MAX` sentinel is a separate constructor.
- Headers (`Types.h`, `Actions.h`, `Evaluation.h`, `Utility.h`) only declare. The
  records follow `Source/Types.h`. The `const` qualifier and the "Dumbell" spelling
  of `Source/Actions.h` are ignored in favour of the definitions.
- The `test()` routine and its `exit(-1)` are left out. Its sixteen cases are the
  `Reorder.Fixture*` lemmas.
- Termination and optimality of the whole algorithm are not claimed. Both need a
  global primal-dual argument.
- Forest.Root, Collapse.Dismantle, Collapse.Walk: these use a fuel bound instead of
  an acyclicity invariant. For `Root` the fuel is the number of flowers, which is
  proved never to cut a terminating walk short (`Forest.RootPathFits`). For
  `Dismantle` and `Walk`, running out of fuel is reported as `None`, like a cycle on
  which the source would not return.
- Driver.Run: the `FOREVER` loop is cut off after `fuel` iterations, and the run is
  then reported as `Crashed`. Its contract states what holds when the loop exits.
  It says nothing about how many iterations are needed.
- Collapse.CollapseTree: its contract states well-formedness and size. Its effect on
  the edges is stated by `Collapse.CollapseTreeFlips`. The settling of both trees is stated separately, by
  `Collapse.CollapseSettlesFirstTree` and `Collapse.CollapseSettlesSecondTree`. The
  second is stated on the arena the first half left, because the first half can move
  flowers of the second tree.
- Collapse.CollapseTree: which full kind the tight edge ends with is not stated, only
  that it ends full. The first step makes it full-in-pairing (Source/Actions.cpp:556).
  On a consistent forest no later swap lists it: the pairing edges the walks collect
  belong to subflowers and odd tree flowers that do not hold its endpoints. The model
  carries no invariant of the forest that rules out such a listing, so it cannot
  prove the edge stays in the pairing.
- Collapse.CollapseTree: that the pairing gains exactly one edge is not proved. It
  depends on the alternation of the tree and blossom edges around every walked
  flower, an invariant of the whole run that the model does not carry. The edge
  effect is stated per swapped edge instead (`Collapse.ClimbEffect`,
  `Collapse.AlternateSwaps`) together with the balance of each alternating path.
- Collapse.Preprocess: it returns `None` when the path it builds would hold a null
  edge. The source would push that null and dereference it later, in
  `swapBlockingAndInPairningEdgeType`.
- Append.AppendDumbbell: its effect is stated for three distinct flowers (tree end,
  dumbbell end and partner). The degenerate cases where two of them coincide are
  modelled but not described further.
- Burst.BurstLinks, Burst.BurstKinds: these are stated for blossoms whose subflowers
  are distinct and dormant. `Contract.CreateThenBurstable` shows that every blossom
  the contraction builds is such a blossom.
