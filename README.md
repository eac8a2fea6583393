# Tile-map graph and Dijkstra/A* search, modelled in Dafny

This project models the algorithmic core of a 16 x 9 tile-map pathfinding demo.

- **`VertexGraph`** (`vertex_graph.dfy`) models the weighted undirected graph over tile locations (`WeightedGraph`).
  - Operations: adding vertices and edges, weight and neighbour queries, and the depth-first connectivity test.
  - `DictToGraph` converts a map from location to tile type into a graph. Obstacle tiles get no vertex. Each tile is joined to its right and lower neighbours with weight `cost(a) + cost(b)`, where normal = 1, slow = 5 and goal = 1.
- **`Pathfinding`** (`pathfinding.dfy`) models the search toward the fixed goal `(15, 4)`, either as Dijkstra's algorithm or as A*.
  - State: a priority queue of `(score, location)` entries, a predecessor map and a cost map.
  - `ReconstructPath` walks the predecessors back, drops the `None` of the start, reverses the list and appends the goal.

The graph is a class whose one field, `vertices`, maps each vertex to its neighbour dictionary (neighbour to edge weight). Its methods update that field in place.

`Valid()` is the representation invariant: no vertex is its own neighbour, and every edge is listed from both ends with the same weight. Every method keeps it.

The search and the path walk are methods with loops, proved against ghost predicates over the graph:
- `IsPath`: consecutive locations are adjacent.
- `PathCost`: the sum of the edge weights.
- `Reachable`: some path joins the two locations.

The main results:

- The search returns a path exactly when the goal can be reached. The path is a path of the graph from the start to `(15, 4)` and repeats no location.
- In Dijkstra mode the returned path is a cheapest one.
- The search terminates. The measure is the vertices not yet recorded, then the total slack of the recorded costs, then the queue size.
- `Connected(a, b)` holds exactly when both are vertices joined by a path.
- `DictToGraph` yields exactly the graph of the tile map. That graph is well formed and its weights are 2, 6 or 10.

## Model

| member | source | states |
|---|---|---|
| VertexGraph.WeightedGraph.constructor | vertex_graph.py:73-75 | a new graph has no vertices and satisfies the representation invariant |
| VertexGraph.WeightedGraph.AddVertex | vertex_graph.py:77-84 | an item already present changes nothing; a new item becomes a vertex with no neighbours; the invariant is kept |
| VertexGraph.WeightedGraph.AddEdge | vertex_graph.py:86-101 | with both items present, the result is the old graph with the edge written both ways at `weight`; with either missing, nothing changes; the invariant is kept |
| VertexGraph.WithEdgeMeaning | vertex_graph.py:95-101 | writing an edge keeps the graph well formed, sets both directions to `w`, adds each endpoint to the other's neighbours, and leaves every other vertex and weight unchanged |
| VertexGraph.WeightedGraph.GetWeight | vertex_graph.py:103-113 | the edge weight between two vertices, 0 when they are not adjacent: a non-zero result is the weight of an edge between them; GetWeightMeaning proves it symmetric and 0 exactly when not adjacent on positive-weight graphs |
| VertexGraph.GetWeightMeaning | vertex_graph.py:103-113 | the weight query is symmetric and is 0 exactly when the two vertices are not adjacent |
| VertexGraph.WeightedGraph.GetNeighbours | vertex_graph.py:115-126 | ValueError exactly when the item is not a vertex; otherwise exactly the item's neighbours, each another vertex that lists the item back |
| VertexGraph.WeightedGraph.GetAllVertices | vertex_graph.py:128-131 | exactly the vertices, so the set is closed under neighbours |
| VertexGraph.WeightedGraph.CheckConnected | vertex_graph.py:44-61 | true exactly when the target can be reached from the item without entering `visited`; when false, the newly visited vertices form a region closed under neighbours that excludes the target |
| VertexGraph.PathStaysInRegion | vertex_graph.py:55-61 | a path that avoids `visited` and starts in a region whose neighbours lie in the region or in `visited` never leaves the region |
| VertexGraph.WeightedGraph.Connected | vertex_graph.py:133-143 | true exactly when both items are vertices and a path joins them; a vertex is connected to itself |
| VertexGraph.ReachableSymmetric | vertex_graph.py:29-31 | in a graph that keeps the invariant, reachability is symmetric |
| VertexGraph.PartialGridGraphAddsEdge | vertex_graph.py:176-184 | scanning a pair of non-obstacle tiles adds exactly the edge between them, weighted by the sum of the tile costs |
| VertexGraph.PartialGridGraphSkips | vertex_graph.py:176-184 | scanning a pair where either tile is an obstacle or missing adds nothing |
| VertexGraph.ScanPairStep | vertex_graph.py:176-184 | the conditional `add_edge` of one scanned pair turns the graph before that pair into the graph after it |
| VertexGraph.PartialGridGraphComplete | vertex_graph.py:170-184 | after all 16 x 9 cells are scanned, the partial graph is the graph of the tile map |
| VertexGraph.GridGraphWellFormed | vertex_graph.py:152-153 | the graph of a tile map keeps the representation invariant and has positive weights |
| VertexGraph.GridGraphShape | vertex_graph.py:152-167 | a tile is a vertex exactly when it is not an obstacle; each edge joins horizontal or vertical neighbours, weighted by the sum of the tile costs, which is 2, 6 or 10 |
| VertexGraph.ConnectPair | vertex_graph.py:176-184 | the conditional `add_edge` of one scanned pair, applied to the graph, advances it by one scan position |
| VertexGraph.ConnectCell | vertex_graph.py:172-184 | handling one cell adds the edges of its two scanned pairs: the graph advances by two scan positions |
| VertexGraph.DictToGraph | vertex_graph.py:146-186 | a fresh, valid graph equal to the graph of the tile map |
| Pathfinding.RemoveFirst | pathfinding.py:100 | ValueError exactly when `x` is absent; otherwise the first occurrence of `x` is removed and everything else is kept |
| Pathfinding.RemoveFinal | pathfinding.py:96-100 | when the walk ends at the start's `None`, that `None` is the only one, so removing it leaves the locations collected |
| Pathfinding.UnwrapReversed | pathfinding.py:101 | reversing the reversed walk gives the locations back in order from the start |
| Pathfinding.WalkBack | pathfinding.py:96-98 | one step of the walk back extends the chain of predecessors by the predecessor of its first location |
| Pathfinding.ChainSuffix | pathfinding.py:96-98 | a walk back along predecessors from the end of a chain is a suffix of that chain |
| Pathfinding.WalkEnded | pathfinding.py:96-100 | the walk back stops either at a location recorded without predecessor, when the walk is a chain and removing the one None leaves the locations collected, or at an unrecorded location, when no chain ends at the location the walk started from |
| Pathfinding.ReconstructPath | pathfinding.py:85-103 | succeeds exactly when a chain of predecessors from a location with predecessor `None` ends at `currentLoc`; the result ends with the goal, and its locations before the goal followed by `currentLoc` form that chain |
| Pathfinding.MinEntryExists | pathfinding.py:45 | a non-empty queue has an entry of least score, so a pop is always possible |
| Pathfinding.Score | pathfinding.py:65-68 | the pushed score is the cost plus the heuristic's estimate in A* mode and the cost alone in Dijkstra mode, so never below the cost |
| Pathfinding.PopKeepsInvariant | pathfinding.py:44-51 | popping an entry other than the goal's leaves the bookkeeping sound, ready to relax the edges from its location |
| Pathfinding.SoundAfterUpdate | pathfinding.py:57-63 | recording a lower cost for a neighbour, with the current location as predecessor, keeps the start at cost 0, all costs non-negative and every predecessor joined by an edge |
| Pathfinding.FrontierAfterUpdate | pathfinding.py:62-70 | after the same update and push, every recorded location other than the current one is still expanded or queued at its current score |
| Pathfinding.QueueAfterUpdate | pathfinding.py:66-70 | pushing the neighbour with a score no lower than its cost keeps every queued score at or above its location's cost, and keeps the goal queued once it is recorded |
| Pathfinding.RelaxUpdate | pathfinding.py:54-70 | relaxing an edge that leads more cheaply to a neighbour keeps the invariant of the relaxation loop, with that neighbour done |
| Pathfinding.RelaxSkip | pathfinding.py:57 | relaxing an edge that does not lead more cheaply changes nothing and keeps the invariant |
| Pathfinding.RelaxDone | pathfinding.py:51-70 | once every neighbour is relaxed, the current location is expanded and the round's invariant holds |
| Pathfinding.UpdateProgresses | pathfinding.py:57-62 | recording a new location or a lower cost never raises a cost and counts as progress |
| Pathfinding.ProgressDecreasesMeasure | pathfinding.py:44-70 | progress shrinks the search's measure: fewer unrecorded vertices, or as many with less cost slack |
| Pathfinding.ChainFollowsEdges | pathfinding.py:54-63 | a chain of predecessors starts at the start, is a path of the graph, and costs no more than the recorded cost of its end |
| Pathfinding.ChainCostsIncrease | pathfinding.py:54-63 | recorded costs strictly increase along a chain of predecessors |
| Pathfinding.ChainNoRepeats | pathfinding.py:54-63 | a chain of predecessors repeats no location |
| Pathfinding.ChainExtend | pathfinding.py:62-63 | a chain extends by a location recorded with the chain's end as its predecessor |
| Pathfinding.ChainExists | pathfinding.py:41-63 | every recorded location ends some chain of predecessors from the start |
| Pathfinding.FrontierBound | pathfinding.py:26-28 | in Dijkstra mode, any path from the start ends at a location recorded no dearer than the path, or some queued entry scores no higher than the path |
| Pathfinding.GoalPopped | pathfinding.py:47-48 | when the goal's entry is popped with least score, the reconstructed path is a path of the graph from the start to the goal with no repeats, is just the goal when the start is the goal, and is cheapest in Dijkstra mode |
| Pathfinding.QueueExhausted | pathfinding.py:44-70 | when the queue runs empty, the goal cannot be reached from the start |
| Pathfinding.PathToGoal | pathfinding.py:47-48 | the goal round returns a path from the start to the goal with no repeated location, only the goal when the start is the goal, and cheapest in Dijkstra mode |
| Pathfinding.RelaxedNone | pathfinding.py:50-51 | before any edge from the popped location is relaxed, the state is the closed form with no improved neighbour |
| Pathfinding.RelaxedTest | pathfinding.py:54-57 | while the neighbours are relaxed, the popped location keeps its cost, and the test on the current costs for a neighbour not yet relaxed is the test on the costs before the expansion |
| Pathfinding.ImprovedAdd | pathfinding.py:57 | relaxing one more neighbour adds it to the improved neighbours exactly when its edge improves it |
| Pathfinding.ImprovedEntriesAdd | pathfinding.py:65-70 | an improving neighbour adds exactly one queue entry, scored from its cost through the popped location |
| Pathfinding.ImprovedMapsAdd | pathfinding.py:62-63 | an improving neighbour adds exactly its cost through the popped location and the popped location as its predecessor |
| Pathfinding.RelaxedUpdateStep | pathfinding.py:57-70 | recording and queueing an improving neighbour keeps the state equal to the closed form, with that neighbour relaxed |
| Pathfinding.RelaxedSkipStep | pathfinding.py:57 | skipping a neighbour whose edge does not improve it keeps the state equal to the closed form, with that neighbour relaxed |
| Pathfinding.RelaxEdge | pathfinding.py:54-70 | one pass of the per-neighbour loop: keeps the relaxation invariant and the closed form with the neighbour relaxed, never raises a cost, and changes nothing unless it makes progress |
| Pathfinding.ExpandNeighbours | pathfinding.py:50-70 | the result is the closed form of the expansion: each neighbour whose edge improves on its recorded cost (or that has none) gets its cost through the popped location and the popped location as predecessor, every other location keeps its cost and predecessor, and the queue gains exactly one entry per improved neighbour, scored by `Score`; the search invariant is restored, no cost rises, and if no cost changed the queue is unchanged, otherwise progress was made |
| Pathfinding.AStarPathfinding | pathfinding.py:18-70 | a path from the start to `(15, 4)` along edges with no repeated location, returned exactly when the goal is reachable, otherwise Unreachable; `[(15, 4)]` when the start is the goal; in Dijkstra mode no path from the start to the goal is cheaper |

## Left out

- `_WeightedVertex` objects: the model represents each vertex by its item, and a graph has one vertex per item. The neighbour dictionary of a vertex object becomes the inner map of `vertices`, so object identity and aliasing between vertex objects are not modelled.
- AddEdge: takes the weight as a required parameter. The source's default weight of 1 is not modelled, because `dict_to_graph` always passes a weight.
- Edge weights are integers. The source also admits floats, but `dict_to_graph` only produces the integers 2, 6 and 10.
- Tile types are an enumeration rather than strings. A string other than the four tile names is not modelled, although the source would raise KeyError on one.
- `_heuristic`: the Euclidean distance uses floating-point `sqrt` and is generally not a whole number. The search takes the heuristic as a parameter of type `Loc -> nat`, so only integer-valued estimates are covered, and `_heuristic` itself is not one of them. The A*-mode guarantees are proved for every such heuristic: a returned path is a path from the start to the goal with no repeats, and Unreachable comes back exactly when the goal cannot be reached.
- AStarPathfinding: cheapest-path optimality is proved for Dijkstra mode only. With an arbitrary non-negative heuristic, A* mode need not return a cheapest path. Optimality under an admissible, consistent Euclidean heuristic is not stated.
- `heapq` layout and tie-breaking on `(score, loc)`: the queue is a multiset, and a pop takes any entry of least score. Every guarantee above holds whichever such entry is taken.
- AStarPathfinding: takes the mode flag as a required parameter; the source's default of False is not modelled, because every caller passes it.
- AStarPathfinding: requires all edge weights to be positive. This is true of every graph `dict_to_graph` builds (weights 2, 6 or 10). It makes predecessor chains acyclic and the search terminate.
- AStarPathfinding: the source has no return statement after its loop and so returns `None` when the queue empties. The model makes this an explicit `Unreachable` result.
- ReconstructPath: a ghost ranking of the predecessors is required, only to prove that the walk back terminates. The search passes its cost map, under which every predecessor is strictly cheaper.
- `check_connected` recurses over a set that the whole search shares and mutates. In `CheckConnected` that set is passed in and the extended set is returned; the order in which neighbours are tried is left open.
- The per-neighbour loop of the search and the body of the inner `for` loop of `dict_to_graph` are separate methods: `ExpandNeighbours`, whose loop body is `RelaxEdge`, and `ConnectCell` with one `ConnectPair` call per `add_edge` test. The goal round of the search is the method `PathToGoal`.
- main.py (the pygame event loop, drawing, the frame clock, the enemy limit and the tile-edit gate that rebuilds the graph and tests `connected` for every enemy) is not part of this model. It is user-interface code.
- gameobjects.py (sprite movement and drawing) and the pixel/tile conversion helpers are not part of this model.
- The doctest and lint blocks under `__main__` are not modelled.
