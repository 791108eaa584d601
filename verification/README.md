# Verified model of the traffic map

A Dafny model of the parts of the traffic map that decide what is drawn and what is counted, with
proofs of what they promise. `dafny verify dfyconfig.toml` checks all of it.

The model keeps the source's shape. State that the source changes in place is a class or an array
(union-find forest, binary heap, search columns, component table, ring of buckets, cursors, ingest
process); each method is tied to a function or a relation on values, and the theorems are lemmas
about those. Loop bodies with a proof of their own are methods of their own. Distances are real
numbers and `haversineKm` is a parameter `km` of which only `IsMetric` is assumed: over all points
strictly between the poles it is non-negative, symmetric, zero exactly between two names of one place
(longitudes modulo 360), and blind to the choice of name. The triangle inequality is assumed only where
a contract says `Triangle`. `landFraction`, `zonesBlock` and `densifyGreatCircle` are parameters too.

`LandRules`, `CableRules`, `TrafficRules`, `IngestRules`, `SniRules` and `FlowLayout` state what the
operations do once more, in fields, literals and units instead of the model's own definitions.

| files | what they model |
|---|---|
| `Geometry`, `Graphs`, `Cells`, `Sequences`, `Options` | points, lengths of polylines, weighted graphs, walks, one-degree cells |
| `UnionFind`, `BinaryHeap`, `ShortestPaths` | path halving, the array heap, Dijkstra with lazy deletion and early exit |
| `LandCandidates` | the ring search for the neighbours of a hub |
| `LandGraph`, `LandPieces`, `LandMerge`, `LandHistory`, `LandUnique`, `LandBackbone` | building the hub backbone, merging its pieces to a fixpoint, that the inputs determine the result |
| `LandRoutes`, `LandIslands`, `LandRules` | overland routes, when hubs stay apart, which links there are, on the configuration |
| `Antimeridian`, `CableGrid`, `CablePlaces` | stitching at the dateline, clustering cable ends into landings |
| `CableGraph`, `CableComponents`, `CableFold`, `CableWires`, `CableUnique`, `CableNetwork` | connecting the cable network, its edges as a history, that the inputs determine the result |
| `CableRoutes`, `CableRules` | routes over cables alone; which segments are laid and where, in degrees and kilometres |
| `JointGraph`, `JointRoutes`, `Engine` | the union of both graphs, its routes, and how the three builders fit together |
| `Landmass` | point in polygon behind bounding boxes |
| `Traffic`, `Buckets`, `RollingWindow`, `Conservation`, `TrafficRules` | the rolling-window aggregator against a replay of its flows, and what it counts, on the fields of the flows |
| `Bytes`, `FlowRecords`, `FlowMasks`, `FlowdStore`, `FlowLayout` | the flowd store-v1 reader, with an encoder to undo it, and its layout in bits and bytes |
| `Ingest`, `IngestReplay`, `IngestRules` | receive, flush, crash and restart around the resume watermark; what reading again loses and repeats; what waits at every moment |
| `ClientHello`, `HelloWire`, `SniRules`, `AppRules` | server name extraction (RFC 8446 sections 4.1.2 and 5.1, RFC 6066 section 3), its byte positions, and suffix rules |

Where the code and its comments disagree, the model follows the code:

- `web/src/cables.ts:473-474` speaks of each end point's nearest hub; the search enters at the nearest
  joint node, a hub exactly when some hub is no farther than every landing (`JointRoutes.EntryIsHubIff`;
  `JointRoutes.EntryCanBeLanding` is an input).
- `web/src/hubs.ts:181-183` says no land edge crosses a barrier; forced corridor and trunk links may
  (`LandHistory.BarrierHoldsIffForcedLinksDo`, `LandHistory.TrunkMayCrossBarrier`).
- `web/src/hubs.ts:173-174` says every hub becomes reachable; pieces stay separate exactly when barriers
  or the sea keep them apart (`LandIslands.HubsFallApartExactly`, and `LandIslands.BuildIslands` for an
  input).
- `web/src/hubs.ts:202-203` speaks of the k nearest hubs; the ring search finds them exactly when the ring
  outdoes every hub beyond it (`LandCandidates.FirstAreNearestIff`), and never across the antimeridian
  (`LandCandidates.AntimeridianHidesNeighbours`).
- `crates/flowd-parse/src/lib.rs:104-105` promises an error for an end inside a record; one to seven
  bytes of a header are a clean end (`FlowdStore.StreamRoundTrip`).
- `crates/flowd-parse/src/lib.rs:132-133` leaves it to callers to skip errors; the iterator ends after the
  first one (`FlowdStore.ErrorsEndTheStream`).
- `crates/ingestor/src/main.rs:205-206` speaks of re-reading without duplicates; a record can be inserted
  again exactly when no record before it carries a later stamp, since the skip test keeps records at the
  watermark (`IngestReplay.StoredTwiceExactlyWithoutLaterStamps`).
- `crates/api/src/aggregator.rs:191` speaks of the trailing `window` seconds; the sum rounds and clamps
  them, the rates divide by the window asked for (`RollingWindow.RateIsFairIff`, and
  `RollingWindow.RateCanBeUnfair` for an input).
- `web/src/cables.ts:193-197` speaks of the nearest pair per separate group; every chord of a system
  starts at its first landing and ends at the next one not connected yet (`CableNetwork.Network.AddSystem`),
  which need not be the nearest (`CableWires.ChordNeedNotBeNearest`).
- `web/src/cables.ts:255` indexes a node table by a component id; `CableFold.StrayWriteIsHarmless`
  shows why nothing goes wrong.

## Model

| member | source | states |
|---|---|---|
| `BinaryHeap.MinHeap.Push` | web/src/hubs.ts:371-380 | After a push the hand-written array heap is ordered again and holds exactly one more pair, the new one. |
| `BinaryHeap.MinHeap.Pop` | web/src/hubs.ts:381-398 | A pop returns a pair no larger than any other in the heap, removes exactly that pair (as a multiset) and leaves the heap ordered. |
| `BinaryHeap.TopIsLeast` | web/src/hubs.ts:381-382 | In an ordered heap the cell at the root is a minimum of all cells, by climbing parents. |
| `BinaryHeap.SiftUpStep` | web/src/cables.ts:502-511 | One swap of the sift-up loop moves the only possible violation to the parent cell. |
| `BinaryHeap.SiftDownStep` | web/src/cables.ts:517-527 | Swapping with the smaller child moves the only possible violation to that child. |
| `ShortestPaths.CrossesFront` | web/src/hubs.ts:399-413 | Any walk from a reached node to one that is not done costs at least the search front: the cut argument behind settling nodes for good. |
| `ShortestPaths.FoundIsShortest` | web/src/hubs.ts:400-403 | When the target is popped while still open, its predecessor columns encode a cheapest walk, so leaving the loop early loses nothing, stale heap pairs included. |
| `ShortestPaths.EmptyHeapMeansUnreachable` | web/src/hubs.ts:399-414 | When the heap runs empty before the target was popped, no walk from the start reaches it. |
| `ShortestPaths.StepBack` | web/src/hubs.ts:415-416 | The predecessor of a reached node is reached by a trail exactly one edge shorter. This, and not decreasing distance, bounds the walk back, so edges of weight zero do no harm. |
| `ShortestPaths.Turn` | web/src/cables.ts:531-547 | Every turn of the loop settles a node or shrinks the heap with the same nodes settled: termination on (open nodes, heap size) with zero-weight edges and duplicate pairs. |
| `ShortestPaths.HeapSearch` | web/src/cables.ts:495-548 | For every graph with non-negative weights: the target distance is finite exactly when a walk exists, and then the columns name a walk of minimum total weight. |
| `UnionFinds.UnionFind.Find` | web/src/hubs.ts:267-273 | Path halving rewires parents but changes no class and returns the representative; it terminates on every forest that unions can build. |
| `UnionFinds.UnionFind.Union` | web/src/cables.ts:171-173 | A union merges exactly the two classes and no others. |
| `UnionFinds.UnionFind.Ensure` | web/src/cables.ts:174-176 | Growing the forest keeps all classes and makes every new node a class of its own. |
| `UnionFinds.ClassIsReach` | web/src/hubs.ts:327-331 | Two nodes have the same representative if and only if the graph connects them. |
| `UnionFinds.AddAndJoin` | web/src/hubs.ts:312-313 | Adding a two-way edge and joining its ends keeps class membership equal to reachability. |
| `LandGraph.BuiltEdges` | web/src/hubs.ts:196-200 | The adjacency lists hold exactly the links asked for, in both directions, each priced by the distance between its hubs. |
| `LandGraph.PairKeyIsUnordered` | web/src/hubs.ts:234-235 | The arithmetic pair key of the duplicate check is equal for two pairs exactly when they are the same unordered pair. |
| `LandBackbone.Backbone.LinkNeighbours` | web/src/hubs.ts:201-240 | Every neighbour link is a candidate of its owner that passed all vetoes, no pair is linked twice, no hub asks for more than six, links come hub by hub in candidate order, and a vetted candidate that its hub is not linked with by its turn is left out only for six links to earlier candidates. |
| `LandCandidates.AllCandidates` | web/src/hubs.ts:188-216 | The lists that the neighbour stage reads: for each hub all other hubs of the first ring of cells that holds 24, or of the eighth, by distance, equally distant ones in scan order. |
| `LandCandidates.Candidates` | web/src/hubs.ts:201-217 | The widening search ends with exactly the hubs of the first ring that holds enough, in that order. |
| `LandCandidates.ScanRing` | web/src/hubs.ts:206-215 | The double loop over the cells lists every hub within the ring once, in scan order, and never the hub itself. |
| `LandCandidates.SortByDistance` | web/src/hubs.ts:217 | The sort orders by distance, keeps the scan order of equally distant hubs, and loses nothing. |
| `LandCandidates.ChosenIsUnique` | web/src/hubs.ts:201-217 | Hubs and distances determine the ring and the whole candidate list. |
| `LandCandidates.FirstAreNearestIff` | web/src/hubs.ts:201-217 | For every m: the candidate list starts with m nearest hubs, and is long enough for that, if and only if every hub beyond the ring is outdone by at least m hubs of the ring. |
| `LandCandidates.AntimeridianHidesNeighbours` | web/src/hubs.ts:187-211 | Two hubs either side of the antimeridian are not candidates of each other, however close they are, so not even the nearest hub is found. |
| `LandCandidates.LeftOutOnlyForNearer` | web/src/hubs.ts:217-239 | A vetted hub of the ring that is not linked by its turn was left out for six links, none of them longer. |
| `LandBackbone.Backbone.LinkForced` | web/src/hubs.ts:246-255 | Corridor and trunk links are wired verbatim and in order when both ends exist, with no veto applied. |
| `LandPieces.UnionEdges` | web/src/hubs.ts:274 | One union per stored edge makes classes equal to connected pieces. |
| `LandPieces.CollectPieces` | web/src/hubs.ts:275-279 | The groups are the classes: pairwise different, each whole and in hub order, together covering every hub, in the order of their first hubs. |
| `LandPieces.SortBySize` | web/src/hubs.ts:280 | The pieces come largest first, are the same multiset of pieces, and equally large pieces keep their order. |
| `LandPieces.StartIsDetermined` | web/src/hubs.ts:275-280 | The graph alone determines the list of pieces the merge loop starts with: largest first, ties by first hub, hubs in order. |
| `LandMerge.NearestCrossing` | web/src/hubs.ts:295-301 | The double loop yields the first shortest crossing that no barrier blocks, or none exactly when all are blocked. |
| `LandMerge.ScanDecidesMerge` | web/src/hubs.ts:306-311 | What the scan found satisfies the merge test if and only if the piece meets the merge condition against the main piece. |
| `LandMerge.PickBridge` | web/src/hubs.ts:294-312 | A bridge is picked if and only if the piece meets the merge condition, and then it is the first shortest unblocked crossing from the piece to the main piece, which the merge rule accepts. |
| `LandGraph.MergeKeepsPartition` | web/src/hubs.ts:312-316 | Merging one piece into groups[0] and its class into the main class keeps the live groups a partition of the hubs into whole classes. |
| `LandBackbone.Backbone.TryMerge` | web/src/hubs.ts:294-317 | A visit merges exactly when the condition holds, over the nearest crossing between the piece and the main piece of that moment; otherwise nothing changes. |
| `LandBackbone.Backbone.MergeToFixpoint` | web/src/hubs.ts:291-319 | The loop ends. Each merge takes the next piece in turn that can be merged, over its nearest crossing to the main piece of that moment, and on exit no piece left out meets the merge condition. |
| `LandHistory.MergesAreDetermined` | web/src/hubs.ts:282-319 | The pieces the loop starts with determine which pieces are merged, in which order and between which hubs. |
| `LandBackbone.Backbone.Build` | web/src/hubs.ts:175-323 | After the whole build: the links are the neighbour links, then the forced ones, then the bridges of a finished run of the merge loop over the components these form, each over its nearest crossing; compRoot classes are exactly the connected pieces; the live groups partition the hubs; nothing mergeable is left. |
| `LandUnique.BackboneIsDetermined` | web/src/hubs.ts:175-323 | Hubs, candidate lists, forced links and vetoes determine every link of the finished backbone and their order. |
| `LandUnique.CandidatesAreNamedOnce` | web/src/hubs.ts:201-217 | The lists of the ring search name every hub once, which is what the determinacy above asks of them. |
| `LandHistory.BarrierHoldsIffForcedLinksDo` | web/src/hubs.ts:230-255 | The finished backbone crosses no barrier if and only if its forced links cross none: the vetoes protect every other link. |
| `LandHistory.TrunkMayCrossBarrier` | web/src/hubs.ts:253-255 | In a concrete world that the builder accepts, with a landing, a metric and a barrier between just two hubs, every result of the build crosses the barrier, because a trunk is wired there. |
| `LandIslands.UnmergeableExactlyWhenSeparated` | web/src/hubs.ts:294-311 | A piece fails the merge condition if and only if every crossing to the main piece is blocked, or its first shortest free crossing is longer than 60 km and mostly over water while the piece has a landing of its own. |
| `LandIslands.HubsFallApartExactly` | web/src/hubs.ts:291-319 | After the build the hubs form more than one component if and only if some piece was left out for one of these two reasons. |
| `LandIslands.BridgeableHubsConnect` | web/src/hubs.ts:173-174 | When every two hubs are unblocked and within 60 km or mostly over land of each other, or no landing lies within 60 km of any hub, every hub reaches every other. |
| `LandIslands.SidesStayApart` | web/src/hubs.ts:202-311 | When barriers, or wide water between hubs with landings, divide the hubs into two sides and no forced link joins them, no hub reaches the other side, whatever the candidate lists. |
| `LandIslands.BuildIslands` | web/src/hubs.ts:173-174 | Building two islands with a landing each, under a metric, leaves their hubs in different components. |
| `LandBackbone.Backbone.LandComponentOf` | web/src/hubs.ts:332-337 | The answer is the component of the hub nearest to the point, and -1 exactly when no data is loaded. |
| `LandRoutes.RouteBetweenHubs` | web/src/hubs.ts:363-417 | Null exactly when the hubs are not connected; otherwise the chain follows a cheapest walk and its drawn length is both access legs plus the cost of the walk. |
| `LandRoutes.StopsLength` | web/src/hubs.ts:415-417 | The polyline through the hubs of a walk is exactly as long as the walk costs. |
| `LandBackbone.Backbone.LandRoute` | web/src/hubs.ts:357-418 | A route exists if and only if both nearest hubs share a component; it is a cheapest chain of hubs, and the drawn line is as long as it costs. |
| `LandBackbone.SameComponentIffRouted` | web/src/hubs.ts:327-337 | Two points share a land component if and only if their end hubs are connected. |
| `Geometry.Nearest` | web/src/hubs.ts:346-353 | The scan returns the first index at minimum distance, and -1 only for an empty list. |
| `Geometry.PathLength` | web/src/cables.ts:43-47 | The loop computes the polyline length. |
| `Geometry.NormLonIsPlaceIff` | web/src/cables.ts:122 | Over all longitudes, normalisation is the canonical wrap if and only if the longitude is at least -540 or names the antimeridian exactly. |
| `Antimeridian.Stitch` | web/src/cables.ts:72-109 | The output is the untouched branches in order followed by one line per join. The joins are the greedy ones: positive ends in scan order, each joined with the first of its nearest free partners, and passed over exactly when it has none. |
| `Antimeridian.StitchIsDetermined` | web/src/cables.ts:86-107 | The branches admit only one such list of joins and one output, so scan order and tie-breaking are settled. |
| `Antimeridian.OutputIsStitched` | web/src/cables.ts:72-109 | Stitching branches with longitudes from -540 up gives only lines that the network below accepts. |
| `Antimeridian.StitchConserves` | web/src/cables.ts:72-109 | Every branch is kept unchanged or used by exactly one join, and the number of points drops by exactly the number of joins. |
| `Antimeridian.JoinIsContinuous` | web/src/cables.ts:100-104 | At a join the line continues from an end at or beyond 179.5 to the shifted other branch, whose end is at or before 180.5, less than two degrees of latitude away; for longitudes in [-180, 180] the two ends lie on their own sides of the dateline, each within half a degree of it. |
| `CableGrid.BlockIsAdjacent` | web/src/cables.ts:130-142 | The 3x3 scan looks at exactly the nodes filed in cells next to the point. |
| `CableNetwork.Network.Lookup` | web/src/cables.ts:128-143 | The scan yields the first closest node of the block within 60 km, or none when there is none. |
| `CableGrid.GridScanIsLinearIff` | web/src/cables.ts:124-143 | The grid answers like a scan over all nodes if and only if every node outside the block that lies within 60 km is matched by a node of the block at least as close. The condition speaks of the nodes and the point alone. |
| `CableGrid.GridScanIsLinear` | web/src/cables.ts:124-143 | Where points two or more cells apart are at least 60 km apart, the grid finds a nearest node within 60 km whenever there is one. |
| `CableGrid.DatelineIsMissed` | web/src/cables.ts:126-132 | Two landings either side of the dateline become two nodes, however close they are: cells do not wrap, and the nodes are not 60 km apart. |
| `CablePlaces.PlacedAreSpread` | web/src/cables.ts:124-154 | When the ends of the cables are in the regime of the grid, all nodes are pairwise at least 60 km apart. |
| `CablePlaces.PlaceNext` | web/src/cables.ts:128-154 | One more point keeps the history: it is placed at the nearest node of its block within 60 km, of equally near ones the first in scan order, and becomes a node exactly when there is none. |
| `CablePlaces.PlacesAreDetermined` | web/src/cables.ts:128-154 | The points alone determine all nodes, their coordinates and which node every point is placed at. |
| `CableGraph.EndsCanBeApart` | web/src/cables.ts:124-143 | The regime is not empty: for the ends of any cable lines there is a metric in which those in cells two or more apart are at least 60 km apart. |
| `CableGrid.FoundAgainIff` | web/src/cables.ts:122-132 | A node stored for a point is found again by looking the point up, if and only if the longitude is at least -540 or names the antimeridian exactly. |
| `CableNetwork.Network.FindOrAdd` | web/src/cables.ts:124-155 | The returned node is within 60 km of the point; either nothing changed, or one node was appended for a point whose block had none; looking the point up again gives the same node. The answer is the linear scan over the nodes before the call if and only if the block covers the point. |
| `CableNetwork.Network.AddEdge` | web/src/cables.ts:156-160 | Both directions are stored with opposite direction flags; self-loops and empty lengths are dropped. |
| `CableGraph.StoredNodesAreApart` | web/src/cables.ts:145 | Different stored nodes are a positive distance apart, so a bridge between them is never dropped as empty. |
| `CableGraph.JoinAfterAdd` | web/src/cables.ts:189-190 | Joining classes after addEdge keeps them equal to reachability even where addEdge added nothing. |
| `CableNetwork.Network.LaySegment` | web/src/cables.ts:182-190 | Both ends of a laid segment are within 60 km of its polyline ends, end up in one class, and the polyline becomes the next branch; between two different nodes it adds exactly one edge, with that branch and the length of the polyline. |
| `CableNetwork.Network.Bridge` | web/src/cables.ts:201-205 | A synthetic edge, as long as the distance, is added exactly between landings that were not connected, and afterwards they are. |
| `CableNetwork.Network.AddSystem` | web/src/cables.ts:177-208 | The branches grow by the laid segments of the system, the edges by exactly one per segment between different nodes and then by its chords; each chord ties the next landing not connected yet to the first one, and at last every two landings of the system reach each other. Nodes and edges from before stay. |
| `CableWires.ChordsAgree` | web/src/cables.ts:196-207 | The landings of a system and the edges before them determine its chords. |
| `CableWires.ChordNeedNotBeNearest` | web/src/cables.ts:192-206 | Four landings in two groups, under a metric: the chord runs 700 km from the first landing to the third, although the second and the third are 200 km apart. |
| `CableComponents.LabelComponents` | web/src/cables.ts:211-226 | Every node is labelled, no edge changes the label, and the sizes count the labels. |
| `CableComponents.LabelAtMostIndex` | web/src/cables.ts:213-226 | Component ids are handed out in order of the smallest node, so the id of node v is at most v. |
| `CableComponents.SameLabelIffReach` | web/src/cables.ts:213-226 | Two nodes carry the same label if and only if they are connected. |
| `CableComponents.LabelsAreDetermined` | web/src/cables.ts:211-226 | The graph determines the labels: components are numbered by their smallest nodes. |
| `CableFold.StrayWriteIsHarmless` | web/src/cables.ts:253-257 | The write that indexes the node table by a component id never spoils a label, because that node already belongs to the main component. |
| `CableFold.NearestPair` | web/src/cables.ts:239-252 | The double loop finds the first closest pair between the component and everything folded so far. |
| `CableFold.LinkJoinsComponent` | web/src/cables.ts:253-257 | The new link joins every node of the folded component to the main one. |
| `CableNetwork.Network.FoldOne` | web/src/cables.ts:235-258 | A fold relabels exactly the nodes of the component and adds exactly one edge, over the first closest pair of nodes. |
| `CableNetwork.Network.FoldAll` | web/src/cables.ts:209-258 | After the fold every node can reach every other. Exactly one edge was added for each component but the first largest one, in order, over its first closest pair to everything folded before, and no edge was lost. |
| `CableNetwork.Network.FoldComponents` | web/src/cables.ts:235-258 | The loop over the component ids relabels exactly as folding them one by one in order does and adds exactly their folds, and every node carrying the main label reaches the hub. |
| `CableNetwork.Network.Build` | web/src/cables.ts:117-260 | For every list of cable systems: the graph is exactly the edges of the laid segments and the chords of each system in turn, then one fold per component left over; nodes are the placed ends of the segments and nothing else, and every segment between two different nodes is drawn by an edge of its own length; every node reaches every other, so flagging all as routable is true; in the regime of the grid all nodes are pairwise at least 60 km apart. |
| `CableUnique.NetworkIsDetermined` | web/src/cables.ts:117-260 | The cable systems and the distance determine the nodes, where every cable end is placed, and every edge of the finished network in order. |
| `CableRoutes.SeedFrom` | web/src/cables.ts:318-343 | Exactly the landings within 800 km of the start are seeded with their access distance; when there is none, exactly the nearest one. |
| `CableRoutes.ScanSearch` | web/src/cables.ts:345-369 | The quadratic scan terminates with distances that no walk from any seed undercuts, each realised by a walk from a seed. |
| `CableRoutes.FiniteIffReachable` | web/src/cables.ts:376 | A node has a finite distance exactly when some boarding landing reaches it. |
| `CableRoutes.PickExit` | web/src/cables.ts:371-384 | The exit minimises cable distance plus access leg among reachable landings within 800 km of the target. |
| `CableRoutes.ExitIsCheapest` | web/src/cables.ts:326-391 | An exit that no other exit undercuts makes boarding, riding and leaving cheapest over all admissible choices at once. |
| `CableRoutes.CollectSegments` | web/src/cables.ts:393-411 | The backward walk ends at a seed and lists the polylines of a cheapest walk in travel order, reversed where flagged. |
| `CableRoutes.CableRoute` | web/src/cables.ts:315-420 | Null exactly when no admissible exit is reachable; otherwise access + cable + access is minimal over all entry and exit pairs, the line is the concatenation of the polylines of that walk, and it is as long as the walk costs, up to 120 km per edge for cables that end near their nodes. |
| `CableRoutes.CableRouteLength` | web/src/cables.ts:393-419 | The concatenated line of any walk is exactly as long as the walk costs when every cable starts and ends at its nodes, and otherwise within 120 km per edge. |
| `CableRoutes.ConnectedNetworkAlwaysRoutes` | web/src/cables.ts:315-391 | On a connected, non-empty network the route is never null, and when any landing snaps to the target the exits are exactly those that do. |
| `JointGraph.StageEdges` | web/src/cables.ts:447-469 | The joint adjacency lists hold exactly the land edges, the cable edges shifted past the hubs, and the backhaul of each landing in both directions. |
| `JointGraph.StageIsGood` | web/src/cables.ts:447-469 | The joint graph is well formed and every edge has its twin, with the direction flag of a drawn cable flipped. |
| `JointGraph.StageIsPriced` | web/src/cables.ts:449-467 | Straight hops cost the distance between their ends; cables cost the length of their polyline, which starts and ends within 60 km of its nodes. |
| `JointGraph.JointIsNoFartherThanLand` | web/src/cables.ts:422-430 | Between two hubs the joint distance never exceeds the land distance. |
| `JointGraph.JointDistanceIsSymmetric` | web/src/cables.ts:449-467 | A shortest route and a shortest route back cost the same. |
| `JointGraph.TiedHubsReachEachOther` | web/src/cables.ts:455-468 | Hubs tied to landings that the cables connect are connected in the joint graph. |
| `Engine.BuiltGraphsJoin` | web/src/cables.ts:441-447 | What the two builders leave behind is a valid input of the joint graph. |
| `Engine.JointConnectsExactly` | web/src/cables.ts:422-471 | Over a connected cable network, two hubs are connected in the joint graph if and only if land connects them or both of their land pieces have a landing tied in. |
| `JointRoutes.JointNetwork.EnsureBuilt` | web/src/cables.ts:441-471 | The graph is built once and then kept; it is refused exactly when there is no hub or no landing. |
| `JointRoutes.LineLength` | web/src/cables.ts:549-561 | For every walk, the drawn line starts and ends at its nodes up to the cluster tolerance, and its length differs from the cost of the walk by at most twice the tolerance per edge. |
| `JointRoutes.ExactCablesDrawExactly` | web/src/cables.ts:549-561 | When every cable polyline starts and ends at its nodes, the drawn line is exactly as long as the route costs, under any metric, triangle inequality or not. |
| `JointRoutes.ClusteredCablesDrawClosely` | web/src/cables.ts:549-561 | For the graph as it is really built, drawn length and search cost differ by at most 120 km per edge. |
| `JointRoutes.JointRouteLength` | web/src/cables.ts:549-563 | With both access legs, the drawn route is as long as access, ride and access together cost: exactly for exact cables, and within 120 km per edge and 60 km for clustered ones. |
| `JointRoutes.EntryIsHubIff` | web/src/cables.ts:482-493 | A route enters at a hub if and only if some hub is no farther from the end point than every landing. |
| `JointRoutes.EntryCanBeLanding` | web/src/cables.ts:482-493 | With one inland hub and a landing on its coast, a route from the landing enters there and not at the only hub. |
| `JointRoutes.DrawBack` | web/src/cables.ts:549-561 | The backward walk rebuilds the line of a cheapest walk, dropping one shared point per cable. |
| `JointRoutes.JointNetwork.JointRoute` | web/src/cables.ts:475-563 | With hubs and landings the graph is built. Then the end points enter at the nearest joint node, hub or landing; null exactly when these are not connected; otherwise the line of a cheapest walk, as long as access legs and walk cost up to the bound above. |
| `Landmass.Pip` | web/src/landmass.ts:70-80 | The toggling loop computes the even-odd rule over the closed ring. |
| `Landmass.MakeBox` | web/src/landmass.ts:50-59 | Every vertex lies in the box, and each side is touched by a vertex or still at its starting value. |
| `Landmass.SidesTelescope` | web/src/landmass.ts:72-78 | Around a ring the changes of side cancel in pairs: their parity compares only the last vertex with the one reached. |
| `Landmass.CrossingBetween` | web/src/landmass.ts:77 | The point where a separating edge meets the latitude lies between the longitudes of its ends. |
| `Landmass.OutsideBoxIsOutside` | web/src/landmass.ts:86-89 | A point outside the box of a ring is outside the ring, for every ring and every side of the box: the pre-check never changes the answer. |
| `Landmass.OnLand` | web/src/landmass.ts:82-91 | True if and only if some polygon holds the wrapped point, boxes or not. |
| `Landmass.ContinentGroup` | web/src/landmass.ts:96-104 | Null exactly when no polygon holds the point, so exactly when onLand is false; otherwise the group of the first polygon that does. |
| `Traffic.GroupByMeaning` | crates/api/src/aggregator.rs:89-189 | A replayed axis has a row for exactly the keys that occur among flows with bytes, holding exactly their sum. |
| `Traffic.MergeIsConcat` | crates/api/src/aggregator.rs:201-226 | Merging the axes of two stretches of time gives the axis of both together. |
| `Traffic.RowsAddUp` | crates/api/src/aggregator.rs:108-188 | The rows of an axis add up to exactly the flows that have a key on it. |
| `Buckets.Fold` | crates/api/src/aggregator.rs:89-189 | Recording a flow into a bucket that replays its second gives the replay of that second with the flow added, on all six axes, with the peer axis limited to the first 4000 peers. |
| `Buckets.BelowCapAllAdmitted` | crates/api/src/aggregator.rs:158 | While a second is below the cap, a peer that was not admitted did not occur. |
| `Buckets.TickKeepsRing` | crates/api/src/aggregator.rs:83-86 | Rolling on keeps every slot the replay of its own second: the slot that is cleared held the second that just left the window. |
| `RollingWindow.Aggregator.Tick` | crates/api/src/aggregator.rs:83-86 | The history gains one empty second and the ring still agrees with it. |
| `RollingWindow.Aggregator.Record` | crates/api/src/aggregator.rs:89-189 | Exactly the current second of the history gains the flow and the ring still agrees with it. |
| `RollingWindow.Aggregator.Snapshot` | crates/api/src/aggregator.rs:192-286 | After any interleaving of record and tick, the totals and every axis equal a group-by over exactly the flows of the last clamp(round(window), 1, 600) seconds, the three rates are those totals per second of the window asked for, and each ranking lists highest rows first with no higher row left out. |
| `RollingWindow.RateIsFairIff` | crates/api/src/aggregator.rs:228 | Over all byte counts, the rounded rate stays within half a bit per second of the average over the seconds that were summed, if and only if the window is a whole number from 1 to 600: the sum is clamped and rounded, the divisor is not. |
| `RollingWindow.RateCanBeUnfair` | crates/api/src/aggregator.rs:228 | For a window of 60.4 seconds, within the range that the API admits, 6000 bytes are reported as 795 bits per second although the 60 seconds summed average 800. |
| `RollingWindow.RateIsNearAverage` | crates/api/src/aggregator.rs:228 | For a whole window the reported rate, cast to 64 bits, is off the average by at most half a bit per second. |
| `RollingWindow.WindowRowAtMost` | crates/api/src/aggregator.rs:205-213 | A peer row never exceeds the sum of that peer over the window. |
| `RollingWindow.WindowRowBelowCap` | crates/api/src/aggregator.rs:205-213 | When no second of the window reached the cap, the peer axis is the plain group-by. |
| `Conservation.ReportIsConserved` | crates/api/src/aggregator.rs:89-226 | In every report the host axis adds up to exactly the flows with an addressed remote peer and at most the total, the country and peer axes to at most the host axis, and the peer axis to exactly the host axis while below the cap. |
| `Bytes.BeOfBytes` | crates/flowd-parse/src/lib.rs:188-199 | Decoding a big-endian encoding gives the number back, at any width that holds it. |
| `Bytes.BytesOfBe` | crates/flowd-parse/src/lib.rs:188-199 | Encoding a decoded number gives the bytes back. |
| `FlowRecords.PayloadSizeFits` | crates/flowd-parse/src/lib.rs:212-294 | For every mask the dictated payload size is a multiple of 4 and at most 176. |
| `FlowRecords.LengthDecides` | crates/flowd-parse/src/lib.rs:212-303 | Decoding succeeds if and only if the payload length is what the known mask bits dictate; shorter is exactly a truncation, longer a mismatch that reports both lengths. |
| `FlowRecords.ApplyEmit` | crates/flowd-parse/src/lib.rs:216-293 | Reading one encoded sub-record restores exactly its fields, for all twenty kinds. |
| `FlowRecords.DecodeEncoded` | crates/flowd-parse/src/lib.rs:212-303 | Decoding the encoding of a record under a mask that describes it gives the record back. |
| `FlowMasks.DecodedIsDescribed` | crates/flowd-parse/src/lib.rs:216-293 | For every mask, a successfully decoded record has exactly the fields its mask names, less the first address of a pair whose second one is there too. |
| `FlowMasks.DecodedIsDescribedIff` | crates/flowd-parse/src/lib.rs:216-293 | A decoded record has exactly the fields its mask names if and only if the mask never has both addresses of a pair. |
| `FlowMasks.DecodeThenEncode` | crates/flowd-parse/src/lib.rs:212-303 | For every mask, a decoded record encoded under the mask that counts decodes to itself; when the mask has at most one address of each pair, that is the mask itself and the payload has its old length. |
| `FlowdStore.Cursor.Take` | crates/flowd-parse/src/lib.rs:177-184 | A take returns the next bytes and drops them, or fails and leaves the cursor alone, exactly when fewer are left. |
| `FlowdStore.DecodePayload` | crates/flowd-parse/src/lib.rs:212-303 | The field-by-field decoder agrees with the decoding function on every mask and payload, errors included. |
| `FlowdStore.FlowIter.ReadRecord` | crates/flowd-parse/src/lib.rs:106-130 | One read returns the record at the front and moves past it, a clean end when the source ends before eight bytes, or the error of the source, of the version, of a short payload or of the decoder. |
| `FlowdStore.FlowIter.Next` | crates/flowd-parse/src/lib.rs:147-162 | The iterator hands out the pending items one by one in order and stays exhausted after the end or the first error. |
| `FlowdStore.DrainFrames` | crates/flowd-parse/src/lib.rs:106-163 | Reading stored records gives them back in order whatever bytes follow them. |
| `FlowdStore.StreamRoundTrip` | crates/flowd-parse/src/lib.rs:106-111 | Stored records followed by fewer than eight bytes read back as exactly those records, and an error only when the source breaks there. |
| `FlowdStore.CutRecordIsReported` | crates/flowd-parse/src/lib.rs:121-127 | A log that ends inside a payload gives all whole records and then exactly one truncation error; a source that breaks there gives its own error instead. |
| `FlowdStore.ErrorsEndTheStream` | crates/flowd-parse/src/lib.rs:157-160 | Only the last item of a stream can be an error. |
| `Ingest.Ingestor.Flush` | crates/ingestor/src/main.rs:393-470 | A flush publishes, then inserts, then moves the watermark, stopping at the step that fails; an empty batch does nothing and a failed SET is ignored. |
| `Ingest.Ingestor.OnRecord` | crates/ingestor/src/main.rs:239-261 | A record below the resume watermark is skipped; otherwise it raises the maximum, joins the batch when it makes a row, and a batch of 1000 is flushed at once. |
| `Ingest.Ingestor.ToRow` | crates/ingestor/src/main.rs:96-105 | A record makes a row exactly when it has a receive time that is a date, both addresses and both counters, and its JSON can be written. |
| `Ingest.Ingestor.Serve` | crates/ingestor/src/main.rs:205-284 | For every list of events, restarts included, the process state is the one the step function gives. |
| `Ingest.FlushCovers` | crates/ingestor/src/main.rs:458-465 | When a flush moves the watermark to the running maximum, everything usable below it is in the database. |
| `Ingest.NothingBelowTheWatermarkIsLost` | crates/ingestor/src/main.rs:205-284 | Over a log in receive order and for every run of receives, flushes, lost SETs, unreadable watermarks, crashes at any point and restarts from the top: every usable record below the persisted watermark is in the database. |
| `Ingest.SafeExactlyWithoutLateRecords` | crates/ingestor/src/main.rs:240-248 | The protocol is safe in every run if and only if the log has no usable record that comes after a later-stamped record and after another usable one. |
| `Ingest.GoneForGood` | crates/ingestor/src/main.rs:241-244 | Once the process has died with such a record missing, no later run that can read the watermark stores it. |
| `IngestReplay.LossIsPossibleExactlyWithLateRecords` | crates/ingestor/src/main.rs:240-248 | Some run reaches a state after which a usable record is never stored by any continuation, if and only if the log has such a late record. |
| `Ingest.CompleteReadStoresAll` | crates/ingestor/src/main.rs:264-267 | Over a log without late records, a run that reads all of it and whose last insert succeeds leaves every usable record in the database. |
| `IngestReplay.CompleteReadStoresExactly` | crates/ingestor/src/main.rs:96-105 | Over a feed without late records, a complete run whose last insert succeeds leaves exactly the records that make a row in the database. |
| `IngestReplay.CompleteReadsStoreAllExactly` | crates/ingestor/src/main.rs:264-267 | Every run that reads the whole log and then shuts down with a working insert leaves every usable record in the database, if and only if the log has no late record. |
| `Ingest.DuplicatesCostARestart` | crates/ingestor/src/main.rs:205-215 | With atomic flushes, over any log, a record is stored at most once more than the number of restarts exactly at its own second. |
| `IngestReplay.StoredTwiceExactlyWithoutLaterStamps` | crates/ingestor/src/main.rs:205-215 | Even with atomic flushes and a readable watermark, some run stores a usable record twice if and only if no timed record before it carries a later stamp. |
| `Ingest.EveryExclusionIsNeeded` | crates/ingestor/src/main.rs:205-215 | Each of a lost SET, a death between insert and SET, and an unreadable watermark lets a record be stored twice although no restart was at its second, so all three exclusions of the bound are needed. |
| `Ingest.StoredWasPublished` | crates/ingestor/src/main.rs:403-458 | In every run each record is published at least as often as it is stored, and only usable records are stored. |
| `ClientHello.ParseClientHelloSni` | crates/sni-sniff/src/lib.rs:139-169 | The parser loop agrees with the recursive reading of the payload on every input. |
| `ClientHello.ParseServerName` | crates/sni-sniff/src/lib.rs:173-188 | The name loop agrees with the recursive reading of the name list: first acceptable host name, nothing after a host name that is not UTF-8. |
| `ClientHello.GraphicIsUtf8` | crates/sni-sniff/src/lib.rs:179-182 | Every string of graphic ASCII characters passes the UTF-8 test, so the test never rejects a host name. |
| `HelloWire.RoundTrip` | crates/sni-sniff/src/lib.rs:139-188 | For any session id, cipher suites, compression methods, earlier extensions of other types, earlier names that are passed over and any bytes after the name, parsing the message returns the lower-cased name. |
| `HelloWire.AcceptsExactlyWireForms` | crates/sni-sniff/src/lib.rs:139-188 | A payload yields a name if and only if it is the wire form of some ClientHello with that name, whatever its enclosing length fields say. |
| `HelloWire.CutAndExtend` | crates/sni-sniff/src/lib.rs:161-168 | For every accepted payload: any cut before the end of its server_name extension gives None, and whatever bytes take the place of those behind that end, the name and the end stay the same. |
| `HelloWire.AppendKeepsName` | crates/sni-sniff/src/lib.rs:161-168 | Bytes appended to an accepted payload change nothing. |
| `HelloWire.EndOfWire` | crates/sni-sniff/src/lib.rs:161-166 | In an encoded message that end is where the bytes after the extension begin. |
| `HelloWire.ResultIsAHostname` | crates/sni-sniff/src/lib.rs:179-184 | Every result is one to 253 bytes, each from 0x21 to 0x7E and none from 0x41 to 0x5A. |
| `AppRules.Classify` | crates/sni-sniff/src/lib.rs:21-37 | The loop ends with the longest suffix at a label start of the dot-trimmed name that has a rule, and None exactly when no such suffix has one. |
| `AppRules.SubdomainsInherit` | crates/sni-sniff/src/lib.rs:18-37 | Putting a label in front of a name changes the answer only when the longer name has a rule itself. |
| `LandRules.NeighboursPassTheVetoes` | web/src/hubs.ts:218-235 | In every finished backbone a neighbour link names a candidate of its owner, joins no two hubs of different known continents and no two corridor hubs, has a land share of at least 0.85 and crosses no barrier: each veto stated on the configuration. |
| `LandRules.PassingCandidatesAreLinked` | web/src/hubs.ts:218-239 | Conversely, a candidate that none of the four vetoes holds back is linked, by its hub or earlier by the other one, unless its hub has six links, all to earlier candidates. |
| `LandRules.ForcedLinksAreConfigured` | web/src/hubs.ts:246-255 | A pair is forced exactly when it is a configured trunk, or a corridor edge counted from the first corridor hub, and both hubs exist; the backbone consists of neighbour links, forced links and bridges. |
| `LandRules.BridgesAreShortDryOrNeeded` | web/src/hubs.ts:295-311 | Every bridge is free of barriers and at most 60 km long, or at least 0.85 over land, or no hub that its first end reaches before the merges has a landing within 60 km. |
| `LandRules.CandidatesAreTheRing` | web/src/hubs.ts:204-216 | A candidate list is all other hubs of the first square of at most eight cells around that holds 24, or of the eighth, by distance and then west to east, south to north and by number. |
| `CableRules.ArcticBand` | web/src/cables.ts:59-63 | A point is in the band exactly when it is north of 69 degrees, or north of 60 with a canonical longitude west of -60 or east of 30. |
| `CableRules.BranchesAvoidTheArctic` | web/src/cables.ts:64-67 | No point of any branch lies north of 69 degrees, and none north of 60 has a canonical longitude outside -60 to 30, whatever longitudes the dataset holds. |
| `CableRules.BranchesAreWanted` | web/src/cables.ts:177-188 | The branches are exactly the segments with two or more points that stay out of the band, system by system and in order. |
| `CableRules.EndsLandAtCloseNodes` | web/src/cables.ts:124-155 | Each cable end lands at a nearest earlier node among those closer than 60 km in the nine cells around it, and becomes the next node exactly when there is none. |
| `CableRules.CablesLandAndConnect` | web/src/cables.ts:182-190 | Both ends of a branch are closer than 60 km to their nodes, and a branch between two nodes is an edge one way and its reverse the other, as long as the polyline. |
| `CableRules.RouteBoardsNearby` | web/src/cables.ts:331-343 | A cheapest route boards at most 800 km from its start, or at the nearest landing when none is that close, and leaves likewise among the landings that can be reached. |
| `CableRules.RouteIsCheapest` | web/src/cables.ts:371-391 | No way to board and leave within 800 km of the end points costs less in access legs and cable together. |
| `CableRules.NearbyLandingsRoute` | web/src/cables.ts:331-384 | Two connected landings within 800 km of the two end points are enough for a route. |
| `TrafficRules.UploadIsAttributed` | crates/api/src/aggregator.rs:104-164 | A flow with only its source at home counts its bytes and packets out; its peer, country and AS are those of the destination, its LAN host is the source. |
| `TrafficRules.DownloadIsAttributed` | crates/api/src/aggregator.rs:104-164 | A flow with only its destination at home counts in; its peer, country and AS are those of the source, its LAN host is the destination. |
| `TrafficRules.InternalIsAttributed` | crates/api/src/aggregator.rs:104-143 | Between two home hosts the bytes count out, there is no peer, country or host row, and the LAN host is the source. |
| `TrafficRules.TransitIsAttributed` | crates/api/src/aggregator.rs:104-143 | Between two other hosts the bytes count out, the peer is the destination, and there is no LAN host. |
| `TrafficRules.TotalsCount` | crates/api/src/aggregator.rs:104-109 | The bytes in of a report are the octets of the flows of the window with the destination at home and the source not, the bytes out those of all other flows; packets likewise. |
| `TrafficRules.LanRowsCount` | crates/api/src/aggregator.rs:119-132 | A LAN row exists exactly when some flow names the host, and counts in what it received from elsewhere and out what it sent. |
| `TrafficRules.PeerRowsCount` | crates/api/src/aggregator.rs:134-167 | As long as no second has more than 4000 peers: a peer row exists exactly when some flow comes in from that address or leaves for it, and counts exactly these flows. |
| `TrafficRules.CountryRowsCount` | crates/api/src/aggregator.rs:152-174 | A country row counts in the flows from that country to a home host and out the flows to it, when the remote address is known. |
| `TrafficRules.ServiceRowsCount` | crates/api/src/aggregator.rs:111-117 | A service row counts exactly the flows that name the service, by direction. |
| `TrafficRules.HostRowsCount` | crates/api/src/aggregator.rs:175-188 | A host row counts exactly the flows whose application or else remote address, remote AS and remote country are its key. |
| `TrafficRules.CapIsExact` | crates/api/src/aggregator.rs:158 | A second keeps at most 4000 peers, all of them seen in it, and it keeps all that were seen exactly when these are at most 4000. |
| `TrafficRules.PeerRowsShowCountry` | crates/api/src/aggregator.rs:157-167 | The country shown with a peer is the first one known in the latest second that knows one. |
| `TrafficRules.RatesCount` | crates/api/src/aggregator.rs:228 | The three rates of a report are those of all octets of the window, of the octets that came in and of those that went out. |
| `TrafficRules.RatesAreRounded` | crates/api/src/aggregator.rs:228 | A rate is within half a bit of eight times the bytes by the window asked for, unless it does not fit 64 bits, where it is the nearest number that does; for a window of zero it is 0 without bytes and the largest number otherwise. |
| `TrafficRules.SecondsAreRounded` | crates/api/src/aggregator.rs:193 | The window summed is the nearest whole number of seconds from 1 to 600, half a second going up. |
| `FlowLayout.DecodingFollowsTheLayout` | crates/flowd-parse/src/lib.rs:212-303 | For every mask and payload: with fewer bytes than the set bits take the payload is truncated, with more it is a mismatch, and otherwise every field is the big-endian number, byte or address at its place behind the sub-records of the lower bits. Bits, widths and places are written out. |
| `FlowLayout.FramesFollowTheLayout` | crates/flowd-parse/src/lib.rs:106-130 | A frame is the byte 0x60, the payload length in words, two bytes without meaning, the mask in four bytes and the payload; what each shortage and each other version gives. |
| `FlowLayout.BitIsSet` | crates/flowd-parse/src/lib.rs:29-48 | A sub-record is present exactly when the mask divided by the power of two of its bit is odd. |
| `IngestRules.RowsAre` | crates/ingestor/src/main.rs:66-105 | A record makes a row exactly when receive second, addresses and counters are there, its JSON can be written, and its second is a date with a thousand times its microseconds, at most 4294967295, as nanoseconds. |
| `IngestRules.EveryMoment` | crates/ingestor/src/main.rs:239-280 | In every run, while the process runs, fewer than 1000 rows wait; they are the last of the usable records stamped no earlier than the watermark it started with, and the running maximum is the latest second among that watermark and everything read. |
| `IngestRules.SizeFlushesAt1000` | crates/ingestor/src/main.rs:253-259 | In every run a record is flushed for the size of the batch exactly when it is the thousandth row to wait. |
| `SniRules.Utf8Exactly` | crates/sni-sniff/src/lib.rs:180 | Bytes pass the UTF-8 test exactly when they are the encoding of a sequence of scalar values, by the encoding table of RFC 3629. |
| `SniRules.MessageGivesItsName` | crates/sni-sniff/src/lib.rs:183 | For every well-formed message the result is as long as the name; each byte is that of the name plus 0x20 where it is 0x41 to 0x5A, and the same elsewhere. |
| `SniRules.HeaderIsRead` | crates/sni-sniff/src/lib.rs:141-158 | A payload is read exactly when it starts with 0x16, has 0x01 at offset 5 and reaches up to its extensions, whose offset is computed from the three lengths at their places; otherwise the result is None. |
| `SniRules.ExtensionsAreRead` | crates/sni-sniff/src/lib.rs:161-168 | The first extension whose two type bytes are zero decides; earlier ones are skipped by their lengths, and a length beyond the end gives None. |
| `SniRules.NamesAreRead` | crates/sni-sniff/src/lib.rs:173-188 | In a list of names the first of type 0 with one to 253 bytes from 0x21 to 0x7E is returned in lower case; one that encodes no scalar values ends the search; any other is passed over by its length. |
| `AppRules.LookedUpAreLastLabels` | crates/sni-sniff/src/lib.rs:26-36 | The suffixes that are looked up are exactly the last labels of the name, one or more of them. |
| `AppRules.LongestIsMostLabels` | crates/sni-sniff/src/lib.rs:18-37 | The rule found is the one given for the largest number of last labels of the name. |
| `Geometry.PlaceIsCanonical` | web/src/cables.ts:122 | The canonical longitude of a point is the only one from -180 up to 180 that is whole turns away. |
| `Landmass.CrossesExactly` | web/src/landmass.ts:77 | At a latitude of the edge other than its upper end, an upward edge is crossed exactly when the point is to its left and a downward one exactly when it is to its right, by products without a division; at any other latitude none is. |
| `Landmass.RectangleExactly` | web/src/landmass.ts:70-80 | In a rectangle exactly the points between its sides are inside, those of the western and southern side included. |

## Left out

- CableGrid.GridScanIsLinear: assumes that cells two apart separate points by 60 km, which real distances satisfy only away from the dateline and below about 57 degrees of latitude; the exact condition without that assumption is `CableGrid.GridScanIsLinearIff`.
- CableNetwork.Network.FindOrAdd: longitudes below -540 are excluded, where JavaScript's remainder leaves the canonical range and a node is not found again; `CableGrid.FoundAgainIff` says exactly when. No dataset point and no stitched end gets there (`Antimeridian.OutputIsStitched`).
- CableNetwork.Network.LaySegment: same bound on the two ends of the polyline; the points between are free.
- CableNetwork.Network.AddSystem: same bound on the ends of every polyline.
- CableNetwork.Network.Build: same bound on the ends of every polyline.
- JointRoutes.ClusteredCablesDrawClosely: assumes the triangle inequality of the distance; the bound of 120 km per edge comes from clustering cable ends within 60 km of a node. So do the 120 km clauses of `JointRoutes.JointRouteLength`, `CableRoutes.CableRouteLength` and the two routes.
- CableRoutes.CableRoute: its length clauses also assume that `densifyGreatCircle` gives a line from point to point that is as long as their distance.
- LandBackbone.Backbone.LinkNeighbours: takes the candidate lists as they are; `LandCandidates.AllCandidates` computes them.
- RollingWindow.Aggregator.Snapshot: the JSON layout, the order of rows with equal totals and windows that are not numbers are not modelled; counters are unbounded where the source has 64 bits.
- FlowMasks.DecodeThenEncode: under a mask with both addresses of a pair the first address is lost, because the second overwrites it; the record then keeps the shorter mask.
- FlowdStore.FlowIter.ReadRecord: an I/O error is one value without its kind or message.
- HelloWire.RoundTrip: host names are bytes; all of them are ASCII by then.
- Ingest.SafeExactlyWithoutLateRecords: the log is the same at every restart; growth of the log is covered by reading it only in part.
- Ingest.Ingestor.ToRow: whether seconds and nanoseconds are a date and whether the JSON can be written are inputs (`Ingest.Feed`); row layout, wall-clock conversion and GeoIP lookup are not modelled.
- Great-circle trigonometry and floating-point rounding: distances are exact reals. Points at the two poles, where all longitudes coincide, are excluded by the type `LngLat`.
- `zonesBlock` and its padded-box prefilter, `landFraction`, `densifyPath`, `densifyGreatCircle`: sampled great circles, kept as parameters.
- `segmentPath` and `flowPath` with their rounded-key cache, `inlandWaypoints`, `nearestLanding`, `countryRings`: selection and caching around the routes modelled here.
- The `inMain` tests inside the cable search: `CableNetwork.Network.Build` shows they always pass.
- The telegraf source of the ingestor.
- The trimming of the Redis stream, the Redis and PostgreSQL clients, the timer and the signal handler: they appear as events and outcomes.
- Link, IP and TCP header parsing and the pcap loop of the sniffer.
- HTTP handlers, SQL, user interface, services and bogon tables: they would add only lookups and plumbing.
